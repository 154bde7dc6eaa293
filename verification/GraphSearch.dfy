/** The depth-limited search over the import graph (backend/graph/query.ts). */
module GraphSearch {
  import opened Options

  type File = string

  /**
   * The parsed graph.json. `files` are its keys in order, `imports` the specifiers listed under each,
   * and `resolvePath(from, dep)` stands for path.resolve(path.dirname(from), dep).
   */
  datatype Graph = Graph(files: seq<File>, imports: map<File, seq<string>>, resolvePath: (File, string) -> string)

  /** One file of the result and the level it was visited at. */
  datatype Visit = Visit(file: File, level: nat)

  /** `Object.keys(graph).find((f) => f.startsWith(resolved))`. */
  function FindPrefix(files: seq<File>, resolved: string): Option<File> {
    if files == [] then None
    else if resolved <= files[0] then Some(files[0])
    else FindPrefix(files[1..], resolved)
  }

  /** The search by prefix finds a file starting with the path whenever there is one. */
  lemma {:induction false} FindPrefixFinds(files: seq<File>, resolved: string)
    ensures var r := FindPrefix(files, resolved);
            && (r.Some? ==> r.value in files && resolved <= r.value)
            && (r.None? ==> forall f :: f in files ==> !(resolved <= f))
  {
    if files != [] && !(resolved <= files[0]) {
      FindPrefixFinds(files[1..], resolved);
      assert files == [files[0]] + files[1..];
    }
  }

  /** Of the files starting with the path, the first in the order of the keys is found. */
  lemma {:induction false} FindPrefixIsFirst(files: seq<File>, resolved: string)
    ensures (exists i :: 0 <= i < |files| && resolved <= files[i]) ==>
              exists i :: 0 <= i < |files| && FindPrefix(files, resolved) == Some(files[i]) && resolved <= files[i]
                          && forall j :: 0 <= j < i ==> !(resolved <= files[j])
    ensures (forall i :: 0 <= i < |files| ==> !(resolved <= files[i])) ==> FindPrefix(files, resolved) == None
  {
    if files != [] && !(resolved <= files[0]) {
      FindPrefixIsFirst(files[1..], resolved);
      assert forall i :: 1 <= i < |files| ==> files[i] == files[1..][i - 1];
      if j :| 0 <= j < |files| && resolved <= files[j] {
        assert resolved <= files[1..][j - 1];
        var i :| 0 <= i < |files[1..]| && FindPrefix(files[1..], resolved) == Some(files[1..][i])
                 && resolved <= files[1..][i] && forall k :: 0 <= k < i ==> !(resolved <= files[1..][k]);
        assert files[i + 1] == files[1..][i];
        forall k | 0 <= k < i + 1 ensures !(resolved <= files[k]) {
          if k > 0 { assert files[k] == files[1..][k - 1]; }
        }
      }
    }
  }

  /** External libraries resolve to nothing. */
  function ResolveImport(g: Graph, from: File, dep: string): Option<File> {
    if !("." <= dep) then None else FindPrefix(g.files, g.resolvePath(from, dep))
  }

  /** The file a specifier leads to; an empty name is falsy and is skipped like a missing one. */
  function Target(g: Graph, from: File, dep: string): Option<File> {
    var m := ResolveImport(g, from, dep);
    if m.Some? && m.value == "" then None else m
  }

  function Deps(g: Graph, file: File): seq<string> {
    if file in g.imports then g.imports[file] else []
  }

  predicate Visited(order: seq<Visit>, file: File) {
    exists i :: 0 <= i < |order| && order[i].file == file
  }

  // ── The search as a function ──────────────────────────────────────────────

  function Budget(depth: int, level: nat): nat {
    if level > depth then 0 else depth + 1 - level
  }

  function Dfs(g: Graph, depth: int, order: seq<Visit>, file: File, level: nat): seq<Visit>
    decreases Budget(depth, level), 0, 0
  {
    if level > depth || Visited(order, file) then order
    else DfsDeps(g, depth, order + [Visit(file, level)], file, Deps(g, file), level + 1)
  }

  function DfsDeps(g: Graph, depth: int, order: seq<Visit>, from: File, deps: seq<string>, level: nat): seq<Visit>
    decreases Budget(depth, level), 1, |deps|
  {
    if deps == [] then order
    else
      var target := Target(g, from, deps[0]);
      var after := if target.Some? then Dfs(g, depth, order, target.value, level) else order;
      DfsDeps(g, depth, after, from, deps[1..], level)
  }

  function Files(order: seq<Visit>): (r: seq<File>)
    ensures |r| == |order| && forall i :: 0 <= i < |r| ==> r[i] == order[i].file
  {
    seq(|order|, i requires 0 <= i < |order| => order[i].file)
  }

  function GetRelatedFiles(g: Graph, entry: File, depth: int): seq<File> {
    Files(Dfs(g, depth, [], entry, 0))
  }

  lemma VisitedAppend(order: seq<Visit>, v: Visit)
    ensures forall f :: Visited(order + [v], f) <==> Visited(order, f) || v.file == f
  {
    var now := order + [v];
    forall f ensures Visited(now, f) <==> Visited(order, f) || v.file == f {
      if Visited(order, f) {
        var i :| 0 <= i < |order| && order[i].file == f;
        assert now[i].file == f;
      }
      assert now[|order|] == v;
    }
  }

  // ── The search as the program runs it ─────────────────────────────────────

  class Search {
    const graph: Graph
    const depth: int
    var visited: set<File>
    var result: seq<File>

    constructor (g: Graph, d: int)
      ensures graph == g && depth == d && visited == {} && result == []
    {
      graph, depth, visited, result := g, d, {}, [];
    }

    /** The mutable state holds exactly the visits of `order`. */
    ghost predicate Holds(order: seq<Visit>)
      reads this
    {
      result == Files(order) && forall f :: f in visited <==> Visited(order, f)
    }

    method RunDfs(file: File, level: nat, ghost order: seq<Visit>)
      requires Holds(order)
      modifies this
      ensures Holds(Dfs(graph, depth, order, file, level))
      decreases Budget(depth, level), 0
    {
      if level > depth || file in visited { return; }
      visited := visited + {file};
      result := result + [file];
      ghost var now := order + [Visit(file, level)];
      VisitedAppend(order, Visit(file, level));
      var deps := Deps(graph, file);
      for i := 0 to |deps|
        invariant Holds(now)
        invariant DfsDeps(graph, depth, now, file, deps[i..], level + 1) == Dfs(graph, depth, order, file, level)
      {
        var target := ResolveImport(graph, file, deps[i]);
        assert deps[i..][0] == deps[i] && deps[i..][1..] == deps[i + 1..];
        if target.Some? && target.value != "" {
          RunDfs(target.value, level + 1, now);
          now := Dfs(graph, depth, now, target.value, level + 1);
        }
      }
    }
  }

  method GetRelated(g: Graph, entry: File, depth: int) returns (result: seq<File>)
    ensures result == GetRelatedFiles(g, entry, depth)
  {
    var search := new Search(g, depth);
    search.RunDfs(entry, 0, []);
    result := search.result;
  }

  // ── Reference: paths in the graph ─────────────────────────────────────────

  ghost predicate Imports(g: Graph, from: File, to: File) {
    exists k :: 0 <= k < |Deps(g, from)| && Target(g, from, Deps(g, from)[k]) == Some(to)
  }

  /**
   * One file imports another, said without the search: a relative specifier is listed under it, and the
   * other is the first file, in the order of the keys, whose name starts with the resolved path.
   */
  ghost predicate LeadsTo(g: Graph, from: File, dep: string, i: nat) {
    && "." <= dep && i < |g.files|
    && g.resolvePath(from, dep) <= g.files[i]
    && forall j :: 0 <= j < i ==> !(g.resolvePath(from, dep) <= g.files[j])
  }

  lemma TargetIsFirst(g: Graph, from: File, dep: string, to: File)
    ensures Target(g, from, dep) == Some(to)
            <==> to != "" && exists i: nat :: LeadsTo(g, from, dep, i) && g.files[i] == to
  {
    var resolved := g.resolvePath(from, dep);
    FindPrefixIsFirst(g.files, resolved);
    if "." <= dep && exists i :: 0 <= i < |g.files| && resolved <= g.files[i] {
      var i :| 0 <= i < |g.files| && FindPrefix(g.files, resolved) == Some(g.files[i]) && resolved <= g.files[i]
               && forall j :: 0 <= j < i ==> !(resolved <= g.files[j]);
      assert LeadsTo(g, from, dep, i);
      forall k: nat | LeadsTo(g, from, dep, k) ensures k == i {}
    }
  }

  lemma ImportsMeans(g: Graph, from: File, to: File)
    ensures Imports(g, from, to)
            <==> from in g.imports && to != ""
                 && exists k: nat, i: nat ::
                      k < |g.imports[from]| && LeadsTo(g, from, g.imports[from][k], i) && g.files[i] == to
  {
    if Imports(g, from, to) {
      var k :| 0 <= k < |Deps(g, from)| && Target(g, from, Deps(g, from)[k]) == Some(to);
      TargetIsFirst(g, from, Deps(g, from)[k], to);
      var i: nat :| LeadsTo(g, from, Deps(g, from)[k], i) && g.files[i] == to;
      assert k < |g.imports[from]| && LeadsTo(g, from, g.imports[from][k], i);
    }
    if from in g.imports && to != "" {
      forall k: nat, i: nat | k < |g.imports[from]| && LeadsTo(g, from, g.imports[from][k], i) && g.files[i] == to
        ensures Imports(g, from, to)
      {
        TargetIsFirst(g, from, g.imports[from][k], to);
        assert Target(g, from, Deps(g, from)[k]) == Some(to);
      }
    }
  }

  /** A path of exactly n imports. */
  ghost predicate Path(g: Graph, from: File, to: File, n: nat)
    decreases n
  {
    if n == 0 then from == to else exists mid :: Path(g, from, mid, n - 1) && Imports(g, mid, to)
  }

  ghost predicate Reachable(g: Graph, from: File, to: File) {
    exists n: nat :: Path(g, from, to, n)
  }

  ghost predicate WithinHops(g: Graph, from: File, to: File, hops: int) {
    exists n: nat :: n <= hops && Path(g, from, to, n)
  }

  // ── Any depth ─────────────────────────────────────────────────────────────

  ghost predicate DistinctFiles(order: seq<Visit>) {
    forall i, j :: 0 <= i < j < |order| ==> order[i].file != order[j].file
  }

  /** Every visit is at most `depth` deep and has an import path of exactly its level from the entry. */
  ghost predicate OnPaths(g: Graph, depth: int, entry: File, order: seq<Visit>) {
    forall i :: 0 <= i < |order| ==> order[i].level <= depth && Path(g, entry, order[i].file, order[i].level)
  }

  /** Visits from position `from` on that are above the cut have all their imports visited. */
  ghost predicate Expanded(g: Graph, depth: int, order: seq<Visit>, from: int) {
    forall i, to {:trigger Imports(g, order[i].file, to)} ::
      0 <= from <= i < |order| && order[i].level < depth && Imports(g, order[i].file, to) ==> Visited(order, to)
  }

  ghost predicate DepsVisited(g: Graph, order: seq<Visit>, from: File, deps: seq<string>) {
    forall d :: d in deps && Target(g, from, d).Some? ==> Visited(order, Target(g, from, d).value)
  }

  lemma VisitedGrows(before: seq<Visit>, after: seq<Visit>, file: File)
    requires before <= after && Visited(before, file)
    ensures Visited(after, file)
  {
    var i :| 0 <= i < |before| && before[i].file == file;
    assert after[i].file == file;
  }

  /** A search only adds visits, never repeats a file, and visits the file it is called on unless cut. */
  lemma DfsGrows(g: Graph, depth: int, order: seq<Visit>, file: File, level: nat)
    requires DistinctFiles(order)
    ensures var after := Dfs(g, depth, order, file, level);
            order <= after && DistinctFiles(after) && (level <= depth ==> Visited(after, file))
    decreases Budget(depth, level), 0, 0
  {
    if level <= depth && !Visited(order, file) {
      Entered(order, Visit(file, level));
      DepsGrow(g, depth, order + [Visit(file, level)], file, Deps(g, file), level + 1);
      VisitedGrows(order + [Visit(file, level)], Dfs(g, depth, order, file, level), file);
    }
  }

  lemma Entered(order: seq<Visit>, v: Visit)
    requires DistinctFiles(order) && !Visited(order, v.file)
    ensures DistinctFiles(order + [v]) && Visited(order + [v], v.file)
  {
    assert (order + [v])[|order|] == v;
  }

  lemma DepsGrow(g: Graph, depth: int, order: seq<Visit>, from: File, deps: seq<string>, level: nat)
    requires DistinctFiles(order)
    ensures var after := DfsDeps(g, depth, order, from, deps, level);
            order <= after && DistinctFiles(after) && (level <= depth ==> DepsVisited(g, after, from, deps))
    decreases Budget(depth, level), 1, |deps|
  {
    if deps != [] {
      var target, mid := Target(g, from, deps[0]), order;
      if target.Some? {
        DfsGrows(g, depth, order, target.value, level);
        mid := Dfs(g, depth, order, target.value, level);
      }
      DepsGrow(g, depth, mid, from, deps[1..], level);
      if target.Some? && level <= depth {
        VisitedGrows(mid, DfsDeps(g, depth, order, from, deps, level), target.value);
      }
    }
  }

  lemma DfsOnPaths(g: Graph, depth: int, order: seq<Visit>, file: File, level: nat, entry: File)
    requires OnPaths(g, depth, entry, order) && Path(g, entry, file, level)
    ensures OnPaths(g, depth, entry, Dfs(g, depth, order, file, level))
    decreases Budget(depth, level), 0, 0
  {
    if level <= depth && !Visited(order, file) {
      DepsOnPaths(g, depth, order + [Visit(file, level)], file, Deps(g, file), level + 1, entry);
    }
  }

  lemma DepsOnPaths(g: Graph, depth: int, order: seq<Visit>, from: File, deps: seq<string>, level: nat, entry: File)
    requires OnPaths(g, depth, entry, order) && level > 0 && Path(g, entry, from, level - 1)
    requires forall d :: d in deps ==> d in Deps(g, from)
    ensures OnPaths(g, depth, entry, DfsDeps(g, depth, order, from, deps, level))
    decreases Budget(depth, level), 1, |deps|
  {
    if deps != [] {
      var target, mid := Target(g, from, deps[0]), order;
      if target.Some? {
        ImportsTarget(g, from, deps[0]);
        assert Path(g, entry, target.value, level);
        DfsOnPaths(g, depth, order, target.value, level, entry);
        mid := Dfs(g, depth, order, target.value, level);
      }
      DepsOnPaths(g, depth, mid, from, deps[1..], level, entry);
    }
  }

  lemma ImportsTarget(g: Graph, from: File, dep: string)
    requires dep in Deps(g, from) && Target(g, from, dep).Some?
    ensures Imports(g, from, Target(g, from, dep).value)
  {
    var k :| 0 <= k < |Deps(g, from)| && Deps(g, from)[k] == dep;
  }

  lemma DfsExpands(g: Graph, depth: int, order: seq<Visit>, file: File, level: nat)
    requires DistinctFiles(order)
    ensures Expanded(g, depth, Dfs(g, depth, order, file, level), |order|)
    decreases Budget(depth, level), 0, 0
  {
    if level <= depth && !Visited(order, file) {
      var now := order + [Visit(file, level)];
      Entered(order, Visit(file, level));
      DepsGrow(g, depth, now, file, Deps(g, file), level + 1);
      DepsExpand(g, depth, now, file, Deps(g, file), level + 1);
      EntryExpanded(g, depth, order, file, level, DfsDeps(g, depth, now, file, Deps(g, file), level + 1));
    }
  }

  lemma EntryExpanded(g: Graph, depth: int, order: seq<Visit>, file: File, level: nat, after: seq<Visit>)
    requires order + [Visit(file, level)] <= after && Expanded(g, depth, after, |order| + 1)
    requires level < depth ==> DepsVisited(g, after, file, Deps(g, file))
    ensures Expanded(g, depth, after, |order|)
  {
    forall i, to | |order| <= i < |after| && after[i].level < depth && Imports(g, after[i].file, to)
      ensures Visited(after, to)
    {
      if i == |order| {
        assert after[i] == (order + [Visit(file, level)])[i];
        var k :| 0 <= k < |Deps(g, file)| && Target(g, file, Deps(g, file)[k]) == Some(to);
        assert Deps(g, file)[k] in Deps(g, file);
      }
    }
  }

  lemma DepsExpand(g: Graph, depth: int, order: seq<Visit>, from: File, deps: seq<string>, level: nat)
    requires DistinctFiles(order)
    ensures Expanded(g, depth, DfsDeps(g, depth, order, from, deps, level), |order|)
    decreases Budget(depth, level), 1, |deps|
  {
    if deps != [] {
      var target, mid := Target(g, from, deps[0]), order;
      if target.Some? {
        DfsGrows(g, depth, order, target.value, level);
        DfsExpands(g, depth, order, target.value, level);
        mid := Dfs(g, depth, order, target.value, level);
      }
      DepsGrow(g, depth, mid, from, deps[1..], level);
      DepsExpand(g, depth, mid, from, deps[1..], level);
      ExpandedGrows(g, depth, mid, DfsDeps(g, depth, order, from, deps, level), |order|);
    }
  }

  lemma ExpandedGrows(g: Graph, depth: int, mid: seq<Visit>, after: seq<Visit>, from: int)
    requires 0 <= from <= |mid| && mid <= after && Expanded(g, depth, mid, from) && Expanded(g, depth, after, |mid|)
    ensures Expanded(g, depth, after, from)
  {
    forall i, to | from <= i < |after| && after[i].level < depth && Imports(g, after[i].file, to)
      ensures Visited(after, to)
    {
      if i < |mid| {
        assert mid[i] == after[i];
        VisitedGrows(mid, after, to);
      }
    }
  }

  /**
   * For any depth: no file twice, every file on an import path of its level and at most `depth` long,
   * and every import of a file visited above the cut is in the result.
   */
  lemma BoundedSearch(g: Graph, entry: File, depth: int)
    ensures var order := Dfs(g, depth, [], entry, 0);
            && DistinctFiles(order)
            && OnPaths(g, depth, entry, order)
            && Expanded(g, depth, order, 0)
            && (Visited(order, entry) <==> depth >= 0)
  {
    assert Path(g, entry, entry, 0);
    DfsGrows(g, depth, [], entry, 0);
    DfsOnPaths(g, depth, [], entry, 0, entry);
    DfsExpands(g, depth, [], entry, 0);
  }

  /** Nothing the search returns is further than `depth` imports away. */
  lemma OnlyWithinHops(g: Graph, entry: File, depth: int, file: File)
    requires file in GetRelatedFiles(g, entry, depth)
    ensures WithinHops(g, entry, file, depth)
  {
    BoundedSearch(g, entry, depth);
    var order := Dfs(g, depth, [], entry, 0);
    var i :| 0 <= i < |order| && Files(order)[i] == file;
    assert order[i].level <= depth && Path(g, entry, file, order[i].level);
  }

  // ── The order of the result ───────────────────────────────────────────────

  /** The specifier leads to a file that is not visited yet. */
  predicate Pending(g: Graph, seen: seq<Visit>, from: File, dep: string) {
    Target(g, from, dep).Some? && !Visited(seen, Target(g, from, dep).value)
  }

  /** Specifier k is the first of these to lead to a file not visited yet. */
  predicate FirstPending(g: Graph, seen: seq<Visit>, from: File, deps: seq<string>, k: nat) {
    && k < |deps| && Pending(g, seen, from, deps[k])
    && forall j :: 0 <= j < k ==> !Pending(g, seen, from, deps[j])
  }

  /** Next comes the first import of this visit's file that is not visited yet, one level deeper. */
  ghost predicate NextIsFirst(g: Graph, seen: seq<Visit>, visit: Visit, rest: seq<Visit>) {
    forall k: nat :: FirstPending(g, seen, visit.file, Deps(g, visit.file), k) ==>
      rest != [] && rest[0] == Visit(Target(g, visit.file, Deps(g, visit.file)[k]).value, visit.level + 1)
  }

  /** Right after visit i comes the first of its file's imports not visited by then, one level deeper. */
  ghost predicate Follows(g: Graph, depth: int, order: seq<Visit>, i: nat)
    requires i < |order|
  {
    order[i].level < depth ==> NextIsFirst(g, order[..i + 1], order[i], order[i + 1..])
  }

  ghost predicate FollowsFrom(g: Graph, depth: int, order: seq<Visit>, from: nat) {
    forall i: nat :: from <= i < |order| ==> Follows(g, depth, order, i)
  }

  lemma FollowsLonger(g: Graph, depth: int, mid: seq<Visit>, after: seq<Visit>, i: nat)
    requires mid <= after && i < |mid| && Follows(g, depth, mid, i)
    ensures Follows(g, depth, after, i)
  {
    assert after[i] == mid[i] && after[..i + 1] == mid[..i + 1] && mid[i + 1..] <= after[i + 1..];
  }

  lemma FollowsExtends(g: Graph, depth: int, mid: seq<Visit>, after: seq<Visit>, from: nat)
    requires mid <= after && from <= |mid| && FollowsFrom(g, depth, mid, from) && FollowsFrom(g, depth, after, |mid|)
    ensures FollowsFrom(g, depth, after, from)
  {
    forall i: nat | from <= i < |after| ensures Follows(g, depth, after, i) {
      if i < |mid| {
        FollowsLonger(g, depth, mid, after, i);
      }
    }
  }

  lemma {:induction false} FirstChild(g: Graph, depth: int, order: seq<Visit>, from: File, deps: seq<string>,
                                      level: nat, k: nat)
    requires DistinctFiles(order) && level <= depth && FirstPending(g, order, from, deps, k)
    ensures var after := DfsDeps(g, depth, order, from, deps, level);
            |order| < |after| && after[|order|] == Visit(Target(g, from, deps[k]).value, level)
    decreases |deps|
  {
    var target := Target(g, from, deps[0]);
    if k == 0 {
      var now := order + [Visit(target.value, level)];
      Entered(order, Visit(target.value, level));
      DepsGrow(g, depth, now, target.value, Deps(g, target.value), level + 1);
      var mid := Dfs(g, depth, order, target.value, level);
      assert now <= mid && mid[|order|] == now[|order|];
      DepsGrow(g, depth, mid, from, deps[1..], level);
    } else {
      assert !Pending(g, order, from, deps[0]);
      assert target.Some? ==> Dfs(g, depth, order, target.value, level) == order;
      forall j | 0 <= j < k - 1 ensures !Pending(g, order, from, deps[1..][j]) { assert deps[1..][j] == deps[j + 1]; }
      FirstChild(g, depth, order, from, deps[1..], level, k - 1);
    }
  }

  lemma DfsFollows(g: Graph, depth: int, order: seq<Visit>, file: File, level: nat)
    requires DistinctFiles(order)
    ensures FollowsFrom(g, depth, Dfs(g, depth, order, file, level), |order|)
    decreases Budget(depth, level), 0, 0
  {
    if level <= depth && !Visited(order, file) {
      var now := order + [Visit(file, level)];
      var after := DfsDeps(g, depth, now, file, Deps(g, file), level + 1);
      Entered(order, Visit(file, level));
      DepsGrow(g, depth, now, file, Deps(g, file), level + 1);
      DepsFollow(g, depth, now, file, Deps(g, file), level + 1);
      assert after[..|order| + 1] == now && after[|order|] == now[|order|];
      assert Follows(g, depth, after, |order|) by {
        if level < depth {
          forall k: nat | FirstPending(g, now, file, Deps(g, file), k)
            ensures |now| < |after| && after[|now|] == Visit(Target(g, file, Deps(g, file)[k]).value, level + 1)
          {
            FirstChild(g, depth, now, file, Deps(g, file), level + 1, k);
          }
        }
      }
    }
  }

  lemma DepsFollow(g: Graph, depth: int, order: seq<Visit>, from: File, deps: seq<string>, level: nat)
    requires DistinctFiles(order)
    ensures FollowsFrom(g, depth, DfsDeps(g, depth, order, from, deps, level), |order|)
    decreases Budget(depth, level), 1, |deps|
  {
    if deps != [] {
      var target, mid := Target(g, from, deps[0]), order;
      if target.Some? {
        DfsGrows(g, depth, order, target.value, level);
        DfsFollows(g, depth, order, target.value, level);
        mid := Dfs(g, depth, order, target.value, level);
      }
      DepsGrow(g, depth, mid, from, deps[1..], level);
      DepsFollow(g, depth, mid, from, deps[1..], level);
      FollowsExtends(g, depth, mid, DfsDeps(g, depth, order, from, deps, level), |order|);
    }
  }

  /**
   * The result is in the order of the specifiers, depth first: every file above the cut is followed at
   * once by the first of its imports that is not in the result by then.
   */
  lemma SearchFollowsSpecifiers(g: Graph, entry: File, depth: int)
    ensures FollowsFrom(g, depth, Dfs(g, depth, [], entry, 0), 0)
  {
    DfsFollows(g, depth, [], entry, 0);
  }

  // ── Completeness ──────────────────────────────────────────────────────────

  /** The cut loses nothing: every import of a file visited at the last level was visited anyway. */
  ghost predicate CutLosesNothing(g: Graph, depth: int, order: seq<Visit>) {
    forall i, to {:trigger Imports(g, order[i].file, to)} ::
      0 <= i < |order| && order[i].level == depth && Imports(g, order[i].file, to) ==> Visited(order, to)
  }

  /** Visits from position `from` on have all their imports visited. */
  ghost predicate AllImportsVisited(g: Graph, order: seq<Visit>, from: int) {
    forall i, to {:trigger Imports(g, order[i].file, to)} ::
      0 <= from <= i < |order| && Imports(g, order[i].file, to) ==> Visited(order, to)
  }

  ghost function FileSet(order: seq<Visit>): set<File> {
    set i | 0 <= i < |order| :: order[i].file
  }

  ghost predicate ClosedSet(g: Graph, all: set<File>) {
    forall from, to {:trigger Imports(g, from, to)} :: from in all && Imports(g, from, to) ==> to in all
  }

  /** A set of files closed under imports contains whatever is reachable from its files. */
  lemma {:induction false} ClosedIsComplete(g: Graph, all: set<File>, entry: File, file: File, n: nat)
    requires entry in all && ClosedSet(g, all) && Path(g, entry, file, n)
    ensures file in all
    decreases n
  {
    if n > 0 {
      var mid :| Path(g, entry, mid, n - 1) && Imports(g, mid, file);
      ClosedIsComplete(g, all, entry, mid, n - 1);
    }
  }

  lemma VisitsAreComplete(g: Graph, order: seq<Visit>, entry: File, file: File)
    requires Visited(order, entry) && AllImportsVisited(g, order, 0) && Reachable(g, entry, file)
    ensures Visited(order, file)
  {
    var all := FileSet(order);
    forall from, to | from in all && Imports(g, from, to) ensures to in all {
      var i :| 0 <= i < |order| && order[i].file == from;
      assert Imports(g, order[i].file, to);
    }
    var n: nat :| Path(g, entry, file, n);
    ClosedIsComplete(g, all, entry, file, n);
  }

  /** The search returns every reachable file if and only if the cut loses nothing. */
  lemma CompleteIffCutLosesNothing(g: Graph, entry: File, depth: nat)
    ensures (forall f :: Reachable(g, entry, f) ==> f in GetRelatedFiles(g, entry, depth))
            <==> CutLosesNothing(g, depth, Dfs(g, depth, [], entry, 0))
  {
    var order := Dfs(g, depth, [], entry, 0);
    BoundedSearch(g, entry, depth);
    forall f ensures f in GetRelatedFiles(g, entry, depth) <==> Visited(order, f) { InFiles(order, f); }
    if CutLosesNothing(g, depth, order) {
      forall f | Reachable(g, entry, f) ensures Visited(order, f) { VisitsAreComplete(g, order, entry, f); }
    }
    if forall f :: Reachable(g, entry, f) ==> f in GetRelatedFiles(g, entry, depth) {
      forall i, to | 0 <= i < |order| && order[i].level == depth && Imports(g, order[i].file, to)
        ensures Visited(order, to) {
        assert Path(g, entry, to, order[i].level + 1);
        assert Reachable(g, entry, to);
      }
    }
  }

  lemma InFiles(order: seq<Visit>, f: File)
    ensures f in Files(order) <==> Visited(order, f)
  {
    if Visited(order, f) {
      var i :| 0 <= i < |order| && order[i].file == f;
      assert Files(order)[i] == f;
    }
  }

  lemma {:induction false} DistinctCount(order: seq<Visit>)
    requires DistinctFiles(order)
    ensures |FileSet(order)| == |order|
  {
    if order != [] {
      var front, last := order[..|order| - 1], order[|order| - 1].file;
      DistinctCount(front);
      assert FileSet(order) == FileSet(front) + {last};
      assert last !in FileSet(front);
    }
  }

  ghost predicate Within(order: seq<Visit>, all: set<File>) {
    forall i :: 0 <= i < |order| ==> order[i].file in all
  }

  lemma SubsetCount(a: set<File>, b: set<File>)
    requires a <= b
    ensures |a| <= |b|
  {
    assert b == a + (b - a);
  }

  /** A call on a file not visited yet is never cut: the level is at most the number of visited files. */
  lemma NeverCut(order: seq<Visit>, file: File, level: nat, depth: int, all: set<File>)
    requires DistinctFiles(order) && Within(order, all) && file in all && !Visited(order, file)
    requires level <= |order| && |all| <= depth + 1
    ensures level <= depth
  {
    DistinctCount(order);
    SubsetCount(FileSet(order) + {file}, all);
    assert file !in FileSet(order);
  }

  /** With depth enough for all files, the search visits every import of every file it visits. */
  lemma DfsComplete(g: Graph, depth: int, order: seq<Visit>, file: File, level: nat, all: set<File>)
    requires DistinctFiles(order)
    requires ClosedSet(g, all) && Within(order, all) && file in all && level <= |order| && |all| <= depth + 1
    ensures var after := Dfs(g, depth, order, file, level);
            Visited(after, file) && Within(after, all) && order <= after && AllImportsVisited(g, after, |order|)
    decreases Budget(depth, level), 0, 0
  {
    DfsGrows(g, depth, order, file, level);
    if !Visited(order, file) {
      NeverCut(order, file, level, depth, all);
      var now := order + [Visit(file, level)];
      Entered(order, Visit(file, level));
      DepsComplete(g, depth, now, file, Deps(g, file), level + 1, all);
      FirstExpanded(g, order, file, level, DfsDeps(g, depth, now, file, Deps(g, file), level + 1));
    }
  }

  lemma FirstExpanded(g: Graph, order: seq<Visit>, file: File, level: nat, after: seq<Visit>)
    requires order + [Visit(file, level)] <= after
    requires AllImportsVisited(g, after, |order| + 1) && DepsVisited(g, after, file, Deps(g, file))
    ensures AllImportsVisited(g, after, |order|)
  {
    forall i, to | |order| <= i < |after| && Imports(g, after[i].file, to) ensures Visited(after, to) {
      if i == |order| {
        assert after[i] == (order + [Visit(file, level)])[i];
        var k :| 0 <= k < |Deps(g, file)| && Target(g, file, Deps(g, file)[k]) == Some(to);
        assert Deps(g, file)[k] in Deps(g, file);
      }
    }
  }

  lemma DepsComplete(g: Graph, depth: int, order: seq<Visit>, from: File, deps: seq<string>, level: nat, all: set<File>)
    requires DistinctFiles(order)
    requires forall d :: d in deps ==> d in Deps(g, from)
    requires ClosedSet(g, all) && Within(order, all) && from in all && level <= |order| && |all| <= depth + 1
    ensures var after := DfsDeps(g, depth, order, from, deps, level);
            && Within(after, all) && order <= after
            && AllImportsVisited(g, after, |order|) && DepsVisited(g, after, from, deps)
    decreases Budget(depth, level), 1, |deps|
  {
    if deps != [] {
      var target, mid := Target(g, from, deps[0]), order;
      var after := DfsDeps(g, depth, order, from, deps, level);
      if target.Some? {
        ImportsTarget(g, from, deps[0]);
        DfsGrows(g, depth, order, target.value, level);
        DfsComplete(g, depth, order, target.value, level, all);
        mid := Dfs(g, depth, order, target.value, level);
      }
      DepsComplete(g, depth, mid, from, deps[1..], level, all);
      AllImportsGrow(g, mid, after, |order|);
      if target.Some? { VisitedGrows(mid, after, target.value); }
    }
  }

  lemma AllImportsGrow(g: Graph, mid: seq<Visit>, after: seq<Visit>, from: int)
    requires 0 <= from <= |mid| && mid <= after && AllImportsVisited(g, mid, from) && AllImportsVisited(g, after, |mid|)
    ensures AllImportsVisited(g, after, from)
  {
    forall i, to | from <= i < |after| && Imports(g, after[i].file, to) ensures Visited(after, to) {
      if i < |mid| {
        assert after[i] == mid[i];
        VisitedGrows(mid, after, to);
      }
    }
  }

  ghost function AllFiles(g: Graph, entry: File): set<File> {
    (set f | f in g.files) + {entry}
  }

  lemma ImportsAreFiles(g: Graph, entry: File)
    ensures ClosedSet(g, AllFiles(g, entry))
  {
    forall from, to | Imports(g, from, to) ensures to in g.files {
      var k :| 0 <= k < |Deps(g, from)| && Target(g, from, Deps(g, from)[k]) == Some(to);
      FindPrefixFinds(g.files, g.resolvePath(from, Deps(g, from)[k]));
    }
  }

  /**
   * With depth at least the number of files minus one, the cut never fires and the result is exactly
   * the set of files reachable from the entry.
   */
  lemma CompleteWhenDeepEnough(g: Graph, entry: File, depth: int)
    requires |AllFiles(g, entry)| - 1 <= depth
    ensures forall f :: f in GetRelatedFiles(g, entry, depth) <==> Reachable(g, entry, f)
  {
    var order := Dfs(g, depth, [], entry, 0);
    assert Path(g, entry, entry, 0);
    ImportsAreFiles(g, entry);
    DfsComplete(g, depth, [], entry, 0, AllFiles(g, entry));
    BoundedSearch(g, entry, depth);
    forall f ensures f in GetRelatedFiles(g, entry, depth) <==> Reachable(g, entry, f) {
      InFiles(order, f);
      if Visited(order, f) {
        var i :| 0 <= i < |order| && order[i].file == f;
        assert Path(g, entry, f, order[i].level);
      }
      if Reachable(g, entry, f) { VisitsAreComplete(g, order, entry, f); }
    }
  }
}
