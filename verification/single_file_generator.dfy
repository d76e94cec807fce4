/** The single-file `GraphGenerator`: one table for one file, the file's
    node in the node set of its directory and of every ancestor directory,
    and clusters for those directories, keyed by their path relative to
    the file's own directory and nested under the first enclosing title. */
module SingleFile {
  import opened Wrappers
  import opened Strings
  import opened JsNumbers
  import opened OrderedMaps
  import opened VsTypes
  import opened GraphTypes
  import Paths
  import Languages
  import Generation

  // ---------------------------------------------------------------------
  // Node sets of directories
  // ---------------------------------------------------------------------

  /** `set.add(x)` on a `Set<string>`, kept in insertion order. */
  function SetAdd(s: seq<string>, x: string): (r: seq<string>)
    ensures forall y :: y in r <==> y in s || y == x
    ensures NoDuplicates(s) ==> NoDuplicates(r)
    ensures |s| <= |r| && r[..|s|] == s
  {
    if x in s then s else s + [x]
  }

  /** The node set of a directory, empty when it has none yet. */
  function NodesOf(m: OMap<string, seq<string>>, dir: string): seq<string> {
    if dir in m.values then m.values[dir] else []
  }

  /** The only directories that are their own `dirname` are `/` and `.`. */
  lemma DirnameFixedPoints(p: string)
    ensures Paths.Dirname(p) == p <==> p == "/" || p == "."
  {
    if p == "//" {
      assert Paths.DirEnd(p, 1, true) == Paths.DirEnd(p, 0, true) == -1;
    }
  }

  /** `dirPath` followed by its ancestors, up to the first directory that is
      its own `dirname`: the directories `addToSubgraph` visits. */
  function Ancestors(p: string): (r: seq<string>)
    ensures |r| >= 1 && r[0] == p
    ensures Paths.Dirname(r[|r| - 1]) == r[|r| - 1]
    ensures forall i | 0 <= i < |r| - 1 :: Paths.Dirname(r[i]) != r[i] && r[i + 1] == Paths.Dirname(r[i])
    decreases Paths.DirMeasure(p)
  {
    if Paths.Dirname(p) == p then [p]
    else
      Paths.DirnameDecreases(p);
      [p] + Ancestors(Paths.Dirname(p))
  }

  /** The walk ends at `/` for an absolute directory and at `.` otherwise. */
  lemma {:induction false} AncestorsEnd(p: string)
    ensures var r := Ancestors(p);
      r[|r| - 1] == (if StartsWith(p, "/") then "/" else ".")
    decreases Paths.DirMeasure(p)
  {
    var d := Paths.Dirname(p);
    if d == p {
      DirnameFixedPoints(p);
    } else {
      Paths.DirnameDecreases(p);
      AncestorsEnd(d);
      assert Ancestors(p) == [p] + Ancestors(d);
      if StartsWith(p, "/") {
        Paths.DirnameAbsolute(p);
      } else {
        DirnameRelative(p);
      }
    }
  }

  /** A relative path has a relative directory. */
  lemma DirnameRelative(p: string)
    requires !StartsWith(p, "/")
    ensures !StartsWith(Paths.Dirname(p), "/")
  {
    var d := Paths.Dirname(p);
    if |p| > 0 {
      assert p[..1] == [p[0]];
      assert p[0] != '/';
      var end := Paths.DirEnd(p, |p| - 1, true);
      if end != -1 {
        assert d == p[..end];
        assert d[..1] == [p[0]];
        assert d[0] != '/';
      } else {
        assert d == ".";
        assert d[0] != '/';
      }
    } else {
      assert d == ".";
      assert d[0] != '/';
    }
    assert d[..1] != "/" by {
      assert d[..1][0] == d[0];
    }
  }

  /** The node sets after `nodeId` is added to each of `dirs`, in order. */
  function AddToAll(m: OMap<string, seq<string>>, dirs: seq<string>, nodeId: string): (r: OMap<string, seq<string>>)
    ensures m.Valid() ==> r.Valid()
    decreases |dirs|
  {
    if |dirs| == 0 then m
    else AddToAll(m.Put(dirs[0], SetAdd(NodesOf(m, dirs[0]), nodeId)), dirs[1..], nodeId)
  }

  /** The walk from `p` is one step at `p`, then the walk from its parent
      unless `p` is its own parent. */
  lemma AddToAncestors(m: OMap<string, seq<string>>, p: string, nodeId: string)
    ensures var first := m.Put(p, SetAdd(NodesOf(m, p), nodeId));
      AddToAll(m, Ancestors(p), nodeId)
      == if Paths.Dirname(p) == p then first else AddToAll(first, Ancestors(Paths.Dirname(p)), nodeId)
  {
    var first := m.Put(p, SetAdd(NodesOf(m, p), nodeId));
    if Paths.Dirname(p) != p {
      assert Ancestors(p)[1..] == Ancestors(Paths.Dirname(p));
    } else {
      assert Ancestors(p)[1..] == [];
    }
  }

  /** Adding to a list of directories adds the node to the set of each of
      them, creating the sets that were missing, and touches no other set. */
  lemma {:induction false} AddToAllSpec(m: OMap<string, seq<string>>, dirs: seq<string>, nodeId: string)
    requires m.Valid()
    ensures forall d :: d in AddToAll(m, dirs, nodeId).values <==> d in m.values || d in dirs
    ensures forall d | d in AddToAll(m, dirs, nodeId).values ::
      AddToAll(m, dirs, nodeId).values[d] == if d in dirs then SetAdd(NodesOf(m, d), nodeId) else m.values[d]
  {
    forall d {
      AddToAllAt(m, dirs, nodeId, d);
    }
  }

  /** The set of one directory after the walk. */
  lemma {:induction false} AddToAllAt(m: OMap<string, seq<string>>, dirs: seq<string>, nodeId: string, d: string)
    ensures d in AddToAll(m, dirs, nodeId).values <==> d in m.values || d in dirs
    ensures d in AddToAll(m, dirs, nodeId).values ==>
      AddToAll(m, dirs, nodeId).values[d] == if d in dirs then SetAdd(NodesOf(m, d), nodeId) else m.values[d]
    decreases |dirs|
  {
    if |dirs| > 0 {
      var m' := m.Put(dirs[0], SetAdd(NodesOf(m, dirs[0]), nodeId));
      AddToAllAt(m', dirs[1..], nodeId, d);
      assert d in dirs <==> d == dirs[0] || d in dirs[1..];
    }
  }

  // ---------------------------------------------------------------------
  // Clusters
  // ---------------------------------------------------------------------

  /** `p.replace(/\\/g, '/')` */
  function Slash(p: string): (r: string)
    ensures |r| == |p|
    ensures forall i | 0 <= i < |r| :: r[i] == if p[i] == '\\' then '/' else p[i]
  {
    ReplaceAllOneForOne(p, '\\', "/");
    ReplaceAll(p, '\\', "/")
  }

  /** A path without backslashes is left as it is. */
  lemma {:induction false} SlashPlain(p: string)
    requires '\\' !in p
    ensures Slash(p) == p
  {
    if |p| > 0 {
      SlashPlain(p[1..]);
      assert p == [p[0]] + p[1..];
    }
  }

  /** Whether the cluster titled `title` is an enclosing directory of `dir`. */
  predicate Encloses(dir: string, title: string) {
    StartsWith(Slash(dir), Slash(title) + "/")
  }

  /** `subgraphs.find(...)`: the first cluster whose title encloses `dir`. */
  function FirstEnclosing(dir: string, siblings: seq<Subgraph>): (r: Option<nat>)
    ensures r.None? <==> forall j | 0 <= j < |siblings| :: !Encloses(dir, siblings[j].title)
    ensures r.Some? ==> (r.value < |siblings| && Encloses(dir, siblings[r.value].title)
      && forall j | 0 <= j < r.value :: !Encloses(dir, siblings[j].title))
  {
    if |siblings| == 0 then None
    else if Encloses(dir, siblings[0].title) then Some(0)
    else match FirstEnclosing(dir, siblings[1..])
      case None => None
      case Some(i) => Some(i + 1)
  }

  /** `addSubgraphExact(dir, nodes, subgraphs)`: a new cluster titled with
      the whole of `dir`, or, inside the first enclosing cluster, the same
      step for the rest of the path after that cluster's title and `/`. */
  function NestExact(dir: string, labels: seq<string>, siblings: seq<Subgraph>): seq<Subgraph>
    decreases |dir|
  {
    match FirstEnclosing(dir, siblings)
    case None => siblings + [Subgraph(dir, labels, [])]
    case Some(i) =>
      var rest := Slash(dir)[|Slash(siblings[i].title)| + 1..];
      siblings[i := siblings[i].(subgraphs := NestExact(rest, labels, siblings[i].subgraphs))]
  }

  /** Where the new cluster goes: at the end when no title encloses `dir`;
      otherwise inside the FIRST enclosing cluster, whatever the length of
      the titles after it, with every other cluster left as it was. */
  lemma NestExactPlacement(dir: string, labels: seq<string>, siblings: seq<Subgraph>)
    ensures (forall j | 0 <= j < |siblings| :: !Encloses(dir, siblings[j].title)) ==>
      NestExact(dir, labels, siblings) == siblings + [Subgraph(dir, labels, [])]
    ensures forall i | 0 <= i < |siblings| && Encloses(dir, siblings[i].title)
        && (forall j | 0 <= j < i :: !Encloses(dir, siblings[j].title)) ::
      var r := NestExact(dir, labels, siblings);
      |r| == |siblings| && r[i].title == siblings[i].title && r[i].nodes == siblings[i].nodes
      && (forall j | 0 <= j < |siblings| && j != i :: r[j] == siblings[j])
  {
  }

  /** Each call adds exactly one cluster, at whatever depth. */
  lemma {:induction false} NestExactCount(dir: string, labels: seq<string>, siblings: seq<Subgraph>)
    ensures Generation.ClusterCount(NestExact(dir, labels, siblings)) == Generation.ClusterCount(siblings) + 1
    decreases |dir|
  {
    match FirstEnclosing(dir, siblings)
    case None =>
      var g := Subgraph(dir, labels, []);
      Generation.ClusterCountAppend(siblings, [g]);
      assert [g][..0] == [];
    case Some(i) =>
      var rest := Slash(dir)[|Slash(siblings[i].title)| + 1..];
      NestExactCount(rest, labels, siblings[i].subgraphs);
      Generation.ClusterCountReplace(siblings, i, siblings[i].(subgraphs := NestExact(rest, labels, siblings[i].subgraphs)));
  }

  /** Every cluster, at every depth, lists exactly `labels`. */
  predicate AllList(sgs: seq<Subgraph>, labels: seq<string>) {
    forall g | g in sgs :: g.nodes == labels && AllList(g.subgraphs, labels)
  }

  lemma AllListAppend(sgs: seq<Subgraph>, g: Subgraph, labels: seq<string>)
    requires AllList(sgs, labels) && g.nodes == labels && AllList(g.subgraphs, labels)
    ensures AllList(sgs + [g], labels)
  {
  }

  lemma AllListReplace(sgs: seq<Subgraph>, i: nat, g: Subgraph, labels: seq<string>)
    requires i < |sgs| && AllList(sgs, labels) && g.nodes == labels && AllList(g.subgraphs, labels)
    ensures AllList(sgs[i := g], labels)
  {
    forall h | h in sgs[i := g]
      ensures h.nodes == labels && AllList(h.subgraphs, labels)
    {
      var k :| 0 <= k < |sgs[i := g]| && sgs[i := g][k] == h;
      if k != i {
        assert h == sgs[k];
      }
    }
  }

  /** A new cluster that lists the same nodes as all the others keeps the
      clusters uniform. */
  lemma {:induction false} NestExactKeepsLists(dir: string, labels: seq<string>, siblings: seq<Subgraph>)
    requires AllList(siblings, labels)
    ensures AllList(NestExact(dir, labels, siblings), labels)
    decreases |dir|
  {
    match FirstEnclosing(dir, siblings)
    case None =>
      AllListAppend(siblings, Subgraph(dir, labels, []), labels);
    case Some(i) =>
      var rest := Slash(dir)[|Slash(siblings[i].title)| + 1..];
      assert siblings[i] in siblings;
      NestExactKeepsLists(rest, labels, siblings[i].subgraphs);
      AllListReplace(siblings, i, siblings[i].(subgraphs := NestExact(rest, labels, siblings[i].subgraphs)), labels);
  }

  /** An example, not a general property: the first match wins over a
      longer one. With clusters `a` and `a/b`, the directory `a/b/c` goes
      under `a` as `b/c`. `NestExactPlacement` states the general rule. */
  lemma FirstNotLongest()
    ensures NestExact("a/b/c", ["1"], [Subgraph("a", [], []), Subgraph("a/b", [], [])])
      == [Subgraph("a", [], [Subgraph("b/c", ["1"], [])]), Subgraph("a/b", [], [])]
  {
    var siblings := [Subgraph("a", [], []), Subgraph("a/b", [], [])];
    FirstTitleEncloses();
    assert FirstEnclosing("a/b/c", siblings) == Some(0);
    NestExactInside("a/b/c", ["1"], siblings, 0);
    RestAfterFirstTitle();
    assert NestExact("b/c", ["1"], []) == [Subgraph("b/c", ["1"], [])];
  }

  /** `a` encloses `a/b/c`. */
  lemma FirstTitleEncloses()
    ensures Encloses("a/b/c", "a")
  {
    SlashPlain("a");
    SlashPlain("a/b/c");
    assert "a/b/c"[..2] == "a" + "/";
  }

  /** Under `a`, the rest of `a/b/c` is `b/c`. */
  lemma RestAfterFirstTitle()
    ensures Slash("a/b/c")[|Slash("a")| + 1..] == "b/c"
  {
    SlashPlain("a");
    SlashPlain("a/b/c");
    assert "a/b/c"[2..] == "b/c";
  }

  /** The step into the first enclosing cluster. */
  lemma NestExactInside(dir: string, labels: seq<string>, siblings: seq<Subgraph>, i: nat)
    requires FirstEnclosing(dir, siblings) == Some(i)
    ensures NestExact(dir, labels, siblings) == siblings[i := siblings[i].(subgraphs :=
      NestExact(Slash(dir)[|Slash(siblings[i].title)| + 1..], labels, siblings[i].subgraphs))]
  {
  }

  /** `subgraphs.find(g => ...)`: the first cluster whose title encloses
      `dir`, scanning from the start. */
  method Find(dir: string, siblings: seq<Subgraph>) returns (ancestor: Option<nat>)
    ensures ancestor == FirstEnclosing(dir, siblings)
  {
    ancestor := None;
    for i := 0 to |siblings|
      invariant ancestor.None? ==> forall j | 0 <= j < i :: !Encloses(dir, siblings[j].title)
      invariant ancestor.Some? ==> (ancestor.value < i && Encloses(dir, siblings[ancestor.value].title)
        && forall j | 0 <= j < ancestor.value :: !Encloses(dir, siblings[j].title))
    {
      if ancestor.None? && StartsWith(Slash(dir), Slash(siblings[i].title) + "/") {
        ancestor := Some(i);
      }
    }
  }

  /** `nodeLabels.get(id) || id`: the recorded label, unless it is missing
      or empty. */
  function Label(labels: OMap<string, string>, id: string): (r: string)
    ensures r == id || (id in labels.values && r == labels.values[id] && r != "")
  {
    match labels.Get(id)
    case Some(l) => if l != "" then l else id
    case None => id
  }

  /** `nodes.map(id => this.nodeLabels.get(id) || id)` */
  function Labelled(labels: OMap<string, string>, ids: seq<string>): seq<string> {
    seq(|ids|, i requires 0 <= i < |ids| => Label(labels, ids[i]))
  }

  /** `path.relative(root, dir)` as a function of `dir`. The process's
      working directory, which `path.relative` resolves relative paths
      against, is a parameter. */
  function RelativeTo(cwd: string, root: string): string -> string {
    dir => Paths.Relative(cwd, root, dir)
  }

  /** Whether `buildDirectoryStructure` keeps a directory: not the file's own
      directory, and with a non-empty path relative to it. */
  predicate Kept(rel: string -> string, root: string, dir: string) {
    dir != root && rel(dir) != ""
  }

  /** The `dirMap` of `buildDirectoryStructure` after the first `n`
      directories: each kept directory's node set under its relative path. */
  function DirMapUpTo(rel: string -> string, root: string, groups: OMap<string, seq<string>>, n: nat): (r: OMap<string, seq<string>>)
    requires groups.Valid() && n <= |groups.keys|
    ensures r.Valid()
  {
    if n == 0 then Empty()
    else
      var m := DirMapUpTo(rel, root, groups, n - 1);
      var dir := groups.keys[n - 1];
      if dir == root then m
      else
        var path := rel(dir);
        if path == "" then m else m.Put(path, groups.At(n - 1))
  }

  /** One more directory leaves the map as it is or puts its node set
      under its relative path. */
  lemma DirMapStep(rel: string -> string, root: string, groups: OMap<string, seq<string>>, k: nat,
                   before: OMap<string, seq<string>>, after: OMap<string, seq<string>>)
    requires groups.Valid() && k < |groups.keys|
    requires before == DirMapUpTo(rel, root, groups, k)
    requires !Kept(rel, root, groups.keys[k]) ==> after == before
    requires Kept(rel, root, groups.keys[k]) ==> after == before.Put(rel(groups.keys[k]), groups.At(k))
    ensures after == DirMapUpTo(rel, root, groups, k + 1)
  {
  }

  /** Entry `k` is the last of the first `n` kept directories whose
      relative path is `d`. */
  predicate LastKept(rel: string -> string, root: string, groups: OMap<string, seq<string>>, n: nat, d: string, k: nat)
    requires n <= |groups.keys|
  {
    k < n && Kept(rel, root, groups.keys[k]) && rel(groups.keys[k]) == d
    && forall k' | k < k' < n :: Kept(rel, root, groups.keys[k']) ==> rel(groups.keys[k']) != d
  }

  /** The map holds exactly the relative paths of the kept directories, each
      with the node set of the last kept directory that has that path. */
  lemma DirMapSpec(rel: string -> string, root: string, groups: OMap<string, seq<string>>, n: nat)
    requires groups.Valid() && n <= |groups.keys|
    ensures forall d :: d in DirMapUpTo(rel, root, groups, n).values <==>
      exists k | 0 <= k < n :: Kept(rel, root, groups.keys[k]) && rel(groups.keys[k]) == d
    ensures forall d | d in DirMapUpTo(rel, root, groups, n).values ::
      exists k :: LastKept(rel, root, groups, n, d, k) && DirMapUpTo(rel, root, groups, n).values[d] == groups.At(k)
  {
    forall d | d in DirMapUpTo(rel, root, groups, n).values
      ensures exists k :: LastKept(rel, root, groups, n, d, k) && DirMapUpTo(rel, root, groups, n).values[d] == groups.At(k)
    {
      var k := DirMapAt(rel, root, groups, n, d);
    }
    forall d, k | 0 <= k < n && Kept(rel, root, groups.keys[k]) && rel(groups.keys[k]) == d
      ensures d in DirMapUpTo(rel, root, groups, n).values
    {
      DirMapHas(rel, root, groups, n, k);
    }
  }

  /** An entry of the map comes from the last kept directory with its path. */
  lemma {:induction false} DirMapAt(rel: string -> string, root: string, groups: OMap<string, seq<string>>, n: nat, d: string) returns (k: nat)
    requires groups.Valid() && n <= |groups.keys|
    requires d in DirMapUpTo(rel, root, groups, n).values
    ensures LastKept(rel, root, groups, n, d, k) && DirMapUpTo(rel, root, groups, n).values[d] == groups.At(k)
  {
    var dir := groups.keys[n - 1];
    var before := DirMapUpTo(rel, root, groups, n - 1);
    DirMapUnfold(rel, root, groups, n - 1);
    if Kept(rel, root, dir) && rel(dir) == d {
      k := n - 1;
    } else {
      DirMapKeeps(before, DirMapUpTo(rel, root, groups, n), rel(dir), groups.At(n - 1), d, Kept(rel, root, dir));
      k := DirMapAt(rel, root, groups, n - 1, d);
      LastKeptExtend(rel, root, groups, n - 1, d, k);
    }
  }

  lemma DirMapUnfold(rel: string -> string, root: string, groups: OMap<string, seq<string>>, k: nat)
    requires groups.Valid() && k < |groups.keys|
    ensures DirMapUpTo(rel, root, groups, k + 1)
      == if Kept(rel, root, groups.keys[k]) then DirMapUpTo(rel, root, groups, k).Put(rel(groups.keys[k]), groups.At(k))
         else DirMapUpTo(rel, root, groups, k)
  {
  }

  /** A map and the same map with one other key put share the entry of `d`. */
  lemma DirMapKeeps(before: OMap<string, seq<string>>, after: OMap<string, seq<string>>, key: string, v: seq<string>, d: string, put: bool)
    requires after == if put then before.Put(key, v) else before
    requires d in after.values && !(put && key == d)
    ensures d in before.values && after.values[d] == before.values[d]
  {
  }

  lemma LastKeptExtend(rel: string -> string, root: string, groups: OMap<string, seq<string>>, n: nat, d: string, k: nat)
    requires n < |groups.keys| && LastKept(rel, root, groups, n, d, k)
    requires !(Kept(rel, root, groups.keys[n]) && rel(groups.keys[n]) == d)
    ensures LastKept(rel, root, groups, n + 1, d, k)
  {
  }

  /** Every kept directory's relative path is in the map. */
  lemma {:induction false} DirMapHas(rel: string -> string, root: string, groups: OMap<string, seq<string>>, n: nat, k: nat)
    requires groups.Valid() && k < n <= |groups.keys| && Kept(rel, root, groups.keys[k])
    ensures rel(groups.keys[k]) in DirMapUpTo(rel, root, groups, n).values
  {
    if k < n - 1 {
      DirMapHas(rel, root, groups, n - 1, k);
    }
    DirMapGrows(rel, root, groups, n, rel(groups.keys[k]));
  }

  /** One more directory keeps every path of the map and adds its own when kept. */
  lemma DirMapGrows(rel: string -> string, root: string, groups: OMap<string, seq<string>>, n: nat, d: string)
    requires groups.Valid() && 0 < n <= |groups.keys|
    requires d in DirMapUpTo(rel, root, groups, n - 1).values || (Kept(rel, root, groups.keys[n - 1]) && rel(groups.keys[n - 1]) == d)
    ensures d in DirMapUpTo(rel, root, groups, n).values
  {
  }

  /** The clusters after the first `n` entries of `dirMap`. */
  function ClustersUpTo(dirMap: OMap<string, seq<string>>, labels: OMap<string, string>, n: nat): seq<Subgraph>
    requires dirMap.Valid() && n <= |dirMap.keys|
  {
    if n == 0 then []
    else NestExact(dirMap.keys[n - 1], Labelled(labels, dirMap.At(n - 1)), ClustersUpTo(dirMap, labels, n - 1))
  }

  /** `buildDirectoryStructure()` over the node sets and labels it reads. */
  function DirectoryClusters(cwd: string, root: string, groups: OMap<string, seq<string>>, labels: OMap<string, string>): seq<Subgraph>
    requires groups.Valid()
  {
    var dirMap := DirMapUpTo(RelativeTo(cwd, root), root, groups, |groups.keys|);
    ClustersUpTo(dirMap, labels, |dirMap.keys|)
  }

  /** When every entry lists the same labels, so does every cluster. */
  lemma {:induction false} ClustersList(dirMap: OMap<string, seq<string>>, labels: OMap<string, string>, n: nat, nodes: seq<string>)
    requires dirMap.Valid() && n <= |dirMap.keys|
    requires forall k | 0 <= k < |dirMap.keys| :: Labelled(labels, dirMap.At(k)) == nodes
    ensures AllList(ClustersUpTo(dirMap, labels, n), nodes)
  {
    if n > 0 {
      ClustersList(dirMap, labels, n - 1, nodes);
      NestExactKeepsLists(dirMap.keys[n - 1], nodes, ClustersUpTo(dirMap, labels, n - 1));
    }
  }

  /** `Array.from(this.tables.values())`: the tables in insertion order. */
  function TableList(tables: OMap<string, TableNode>): (r: seq<TableNode>)
    requires tables.Valid()
    ensures |r| == |tables.keys|
    ensures forall i | 0 <= i < |r| :: r[i] == tables.values[tables.keys[i]]
  {
    seq(|tables.keys|, i requires 0 <= i < |tables.keys| => tables.At(i))
  }

  /** The graph `generate()` returns for the given state: the tables, no
      edges, and the directory clusters. */
  function GraphOf(cwd: string, filePath: string, tables: OMap<string, TableNode>, groups: OMap<string, seq<string>>, labels: OMap<string, string>): Graph
    requires tables.Valid() && groups.Valid()
  {
    Graph(TableList(tables), [], DirectoryClusters(cwd, Paths.Dirname(filePath), groups, labels), None)
  }

  /** The table `processSymbols` asks the language for: the file as file 1. */
  function TableFor(language: Languages.Language, filePath: string, symbols: seq<DocumentSymbol>): Result<TableNode, Error> {
    Languages.FileRepr(language, FileOutline(1, filePath, symbols))
  }

  /** A fresh generator's graph: its one table, no edges, and clusters that
      all list the file's title as their only node, or `1` when the title
      is empty. */
  lemma FreshGraph(cwd: string, language: Languages.Language, filePath: string, symbols: seq<DocumentSymbol>)
    requires TableFor(language, filePath, symbols).Ok?
    ensures var table := TableFor(language, filePath, symbols).value;
      var title := Languages.FileTitle(language, filePath).value;
      var g := GraphOf(cwd, filePath, Empty<string, TableNode>().Put("1", table),
        AddToAll(Empty(), Ancestors(Paths.Dirname(filePath)), "1"), Empty<string, string>().Put("1", title));
      g.nodes == [table] && table.id == 1 && g.edges == []
      && AllList(g.subgraphs, [if title == "" then "1" else title])
  {
    FreshGraphOf(cwd, filePath, TableFor(language, filePath, symbols).value, Languages.FileTitle(language, filePath).value);
  }

  /** The same, for any table and title. */
  lemma FreshGraphOf(cwd: string, filePath: string, table: TableNode, title: string)
    ensures var g := GraphOf(cwd, filePath, Empty<string, TableNode>().Put("1", table),
        AddToAll(Empty(), Ancestors(Paths.Dirname(filePath)), "1"), Empty<string, string>().Put("1", title));
      g.nodes == [table] && g.edges == [] && AllList(g.subgraphs, [if title == "" then "1" else title])
  {
    var tables := Empty<string, TableNode>().Put("1", table);
    var labels := Empty<string, string>().Put("1", title);
    var groups := AddToAll(Empty(), Ancestors(Paths.Dirname(filePath)), "1");
    var root := Paths.Dirname(filePath);
    assert TableList(tables) == [table];
    FreshSetsHoldOne(Ancestors(root));
    LabelOfOne(title);
    UniformClusters(RelativeTo(cwd, root), root, groups, labels, [if title == "" then "1" else title]);
  }

  /** When every directory holds just node `1`, shown as `nodes`, every
      cluster lists `nodes`. */
  lemma UniformClusters(rel: string -> string, root: string, groups: OMap<string, seq<string>>, labels: OMap<string, string>, nodes: seq<string>)
    requires groups.Valid() && forall d | d in groups.values :: groups.values[d] == ["1"]
    requires Labelled(labels, ["1"]) == nodes
    ensures var dirMap := DirMapUpTo(rel, root, groups, |groups.keys|);
      AllList(ClustersUpTo(dirMap, labels, |dirMap.keys|), nodes)
  {
    var dirMap := DirMapUpTo(rel, root, groups, |groups.keys|);
    DirMapUniform(rel, root, groups, ["1"]);
    UniformLabels(dirMap, labels, ["1"]);
    ClustersList(dirMap, labels, |dirMap.keys|, nodes);
  }

  /** Walking from an empty map leaves every set holding just the node. */
  lemma FreshSetsHoldOne(dirs: seq<string>)
    ensures forall d | d in AddToAll(Empty(), dirs, "1").values :: AddToAll(Empty(), dirs, "1").values[d] == ["1"]
  {
    AddToAllSpec(Empty(), dirs, "1");
  }

  /** When every directory has the same node set, so does every entry. */
  lemma DirMapUniform(rel: string -> string, root: string, groups: OMap<string, seq<string>>, ids: seq<string>)
    requires groups.Valid() && forall d | d in groups.values :: groups.values[d] == ids
    ensures forall k | 0 <= k < |DirMapUpTo(rel, root, groups, |groups.keys|).keys| ::
      DirMapUpTo(rel, root, groups, |groups.keys|).At(k) == ids
  {
    var dirMap := DirMapUpTo(rel, root, groups, |groups.keys|);
    forall k | 0 <= k < |dirMap.keys|
      ensures dirMap.At(k) == ids
    {
      var j := DirMapAt(rel, root, groups, |groups.keys|, dirMap.keys[k]);
      assert groups.keys[j] in groups.values;
    }
  }

  /** The one node is shown by the file's title, or by its id `1` when the
      title is empty. */
  lemma LabelOfOne(title: string)
    ensures Labelled(Empty<string, string>().Put("1", title), ["1"]) == [if title == "" then "1" else title]
  {
    var labels := Empty<string, string>().Put("1", title);
    assert Label(labels, "1") == if title == "" then "1" else title;
  }

  /** Every entry that lists the same ids gives the same labels. */
  lemma UniformLabels(dirMap: OMap<string, seq<string>>, labels: OMap<string, string>, ids: seq<string>)
    requires dirMap.Valid() && forall k | 0 <= k < |dirMap.keys| :: dirMap.At(k) == ids
    ensures forall k | 0 <= k < |dirMap.keys| :: Labelled(labels, dirMap.At(k)) == Labelled(labels, ids)
  {
  }

  // ---------------------------------------------------------------------
  // The generator
  // ---------------------------------------------------------------------

  /** The first loop of `buildDirectoryStructure`: the node set of each
      directory of `groups` other than `rootDir`, under its non-empty
      relative path. */
  method GroupRelative(cwd: string, rootDir: string, groups: OMap<string, seq<string>>) returns (dirMap: OMap<string, seq<string>>)
    requires groups.Valid()
    ensures dirMap == DirMapUpTo(RelativeTo(cwd, rootDir), rootDir, groups, |groups.keys|)
  {
    dirMap := Empty();
    for k := 0 to |groups.keys|
      invariant dirMap == DirMapUpTo(RelativeTo(cwd, rootDir), rootDir, groups, k)
    {
      dirMap := GroupDirectory(cwd, rootDir, groups, k, dirMap);
    }
  }

  /** One round of that loop: the `k`th directory is skipped or stored. */
  method GroupDirectory(cwd: string, rootDir: string, groups: OMap<string, seq<string>>, k: nat, dirMap: OMap<string, seq<string>>)
    returns (r: OMap<string, seq<string>>)
    requires groups.Valid() && k < |groups.keys|
    requires dirMap == DirMapUpTo(RelativeTo(cwd, rootDir), rootDir, groups, k)
    ensures r == DirMapUpTo(RelativeTo(cwd, rootDir), rootDir, groups, k + 1)
  {
    r := dirMap;
    var dirPath := groups.keys[k];
    if dirPath != rootDir {
      var relativeDir := Paths.Relative(cwd, rootDir, dirPath);
      if relativeDir != "" {
        r := dirMap.Put(relativeDir, groups.At(k));
      }
    }
    DirMapStep(RelativeTo(cwd, rootDir), rootDir, groups, k, dirMap, r);
  }

  class GraphGenerator {
    const language: Languages.Language
    const filePath: string
    const symbols: seq<DocumentSymbol>
    /** Never appended to. */
    const edges: seq<Edge> := []
    var tables: OMap<string, TableNode>
    var subgraphs: OMap<string, seq<string>>
    var nodeLabels: OMap<string, string>

    predicate Valid()
      reads this
    {
      tables.Valid() && subgraphs.Valid() && nodeLabels.Valid()
    }

    constructor(language: Languages.Language, filePath: string, symbols: seq<DocumentSymbol>)
      ensures Valid()
      ensures this.language == language && this.filePath == filePath && this.symbols == symbols
      ensures tables == Empty() && subgraphs == Empty() && nodeLabels == Empty()
    {
      this.language := language;
      this.filePath := filePath;
      this.symbols := symbols;
      tables := Empty();
      subgraphs := Empty();
      nodeLabels := Empty();
    }

    /** `generate()`: the tables, the directory clusters and the (always
        empty) edge list, or the error the language's title raised. */
    method Generate(cwd: string) returns (r: Result<Graph, Error>)
      requires Valid()
      modifies this
      ensures Valid()
      ensures r.Err? <==> Languages.FileTitle(language, filePath).Err?
      ensures r.Err? ==> r.error == Languages.FileTitle(language, filePath).error && unchanged(this)
      ensures r.Ok? ==>
        tables == old(tables).Put("1", TableFor(language, filePath, symbols).value)
        && nodeLabels == old(nodeLabels).Put("1", Languages.FileTitle(language, filePath).value)
        && subgraphs == AddToAll(old(subgraphs), Ancestors(Paths.Dirname(filePath)), "1")
        && r.value == GraphOf(cwd, filePath, tables, subgraphs, nodeLabels)
        && r.value.edges == []
    {
      var done := ProcessSymbols();
      if done.Err? {
        return Err(done.error);
      }
      var clusters := BuildDirectoryStructure(cwd);
      return Ok(Graph(TableList(tables), edges, clusters, None));
    }

    /** `processSymbols()`: the file's table under key `1`, its title as the
        node label, and its node in its directory and every ancestor. */
    method ProcessSymbols() returns (r: Result<(), Error>)
      requires Valid()
      modifies this
      ensures Valid()
      ensures r.Err? <==> Languages.FileTitle(language, filePath).Err?
      ensures r.Err? ==> r.error == Languages.FileTitle(language, filePath).error && unchanged(this)
      ensures r.Ok? ==>
        TableFor(language, filePath, symbols).value.id == 1
        && tables == old(tables).Put("1", TableFor(language, filePath, symbols).value)
        && nodeLabels == old(nodeLabels).Put("1", Languages.FileTitle(language, filePath).value)
        && subgraphs == AddToAll(old(subgraphs), Ancestors(Paths.Dirname(filePath)), "1")
    {
      var table := TableFor(language, filePath, symbols);
      if table.Err? {
        return Err(table.error);
      }
      var tableId := NatToString(table.value.id);
      assert tableId == "1";
      tables := tables.Put(tableId, table.value);
      var nodeLabel := Languages.FileTitle(language, filePath);
      nodeLabels := nodeLabels.Put(tableId, nodeLabel.value);
      var dirPath := Paths.Dirname(filePath);
      AddToSubgraph(dirPath, tableId);
      return Ok(());
    }

    /** `addToSubgraph(dirPath, nodeId)`: the node joins the set of `dirPath`,
        created when missing, and then that of its parent, until `dirname`
        reaches a fixed point. */
    method AddToSubgraph(dirPath: string, nodeId: string)
      requires Valid()
      modifies this
      ensures Valid()
      ensures subgraphs == AddToAll(old(subgraphs), Ancestors(dirPath), nodeId)
      ensures tables == old(tables) && nodeLabels == old(nodeLabels)
      decreases Paths.DirMeasure(dirPath)
    {
      ghost var before := subgraphs;
      // A missing set is created, stored and then filled: one `Put` of the filled set.
      var nodes := subgraphs.Get(dirPath);
      var current := if nodes.None? then [] else nodes.value;
      subgraphs := subgraphs.Put(dirPath, SetAdd(current, nodeId));
      var parentDir := Paths.Dirname(dirPath);
      if parentDir != dirPath {
        Paths.DirnameDecreases(dirPath);
        AddToSubgraph(parentDir, nodeId);
      }
      AddToAncestors(before, dirPath, nodeId);
    }

    /** `buildDirectoryStructure()`: the kept directories under their
        relative paths, then one cluster per entry. The working directory
        `path.relative` resolves relative paths against is a parameter. */
    method BuildDirectoryStructure(cwd: string) returns (r: seq<Subgraph>)
      requires Valid()
      ensures r == DirectoryClusters(cwd, Paths.Dirname(filePath), subgraphs, nodeLabels)
      ensures Generation.ClusterCount(r) == |DirMapUpTo(RelativeTo(cwd, Paths.Dirname(filePath)), Paths.Dirname(filePath), subgraphs, |subgraphs.keys|).keys|
    {
      var rootDir := Paths.Dirname(filePath);
      var dirMap := GroupRelative(cwd, rootDir, subgraphs);
      r := ClusterAll(dirMap);
    }

    /** The second loop of `buildDirectoryStructure`: one cluster per entry. */
    method ClusterAll(dirMap: OMap<string, seq<string>>) returns (r: seq<Subgraph>)
      requires dirMap.Valid()
      ensures r == ClustersUpTo(dirMap, nodeLabels, |dirMap.keys|)
      ensures Generation.ClusterCount(r) == |dirMap.keys|
    {
      r := [];
      for k := 0 to |dirMap.keys|
        invariant r == ClustersUpTo(dirMap, nodeLabels, k)
        invariant Generation.ClusterCount(r) == k
      {
        r := AddSubgraphExact(dirMap.keys[k], dirMap.At(k), r);
      }
    }

    /** `addSubgraphExact(dir, nodes, subgraphs)`: the scan for the first
        enclosing title, then the new cluster or the step into that one. */
    method AddSubgraphExact(dir: string, nodes: seq<string>, siblings: seq<Subgraph>) returns (r: seq<Subgraph>)
      ensures r == NestExact(dir, Labelled(nodeLabels, nodes), siblings)
      ensures Generation.ClusterCount(r) == Generation.ClusterCount(siblings) + 1
      decreases |dir|
    {
      var ancestor := Find(dir, siblings);
      NestExactCount(dir, Labelled(nodeLabels, nodes), siblings);
      match ancestor
      case None =>
        r := siblings + [Subgraph(dir, Labelled(nodeLabels, nodes), [])];
      case Some(i) =>
        var normalizedDir := Slash(dir);
        var normalizedTitle := Slash(siblings[i].title);
        var relativeDir := normalizedDir[|normalizedTitle| + 1..];
        var children := AddSubgraphExact(relativeDir, nodes, siblings[i].subgraphs);
        r := siblings[i := siblings[i].(subgraphs := children)];
    }
  }
}
