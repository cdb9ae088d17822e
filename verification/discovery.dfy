/** Finding the projects of a workspace: a breadth-first walk of a directory tree. */
module Discovery {
  import opened Collections
  import opened Sorting
  import TextOrder

  /** What `iterdir` can give. A link is followed for `is_file` and never entered. */
  datatype Node =
    | File(name: string)
    | Link(name: string, toFile: bool)
    | Directory(name: string, readable: bool, entries: seq<Node>)

  const SKIP_DIRS: set<string> := {
    "node_modules", ".git", ".svn", ".hg", "__pycache__", ".venv", "venv", ".tox", "dist", "build", "out", ".next",
    ".nuxt", "coverage", ".nyc_output", ".mypy_cache", ".pytest_cache", ".ruff_cache", "site-packages", ".eggs", "eggs"
  }

  const NODE_MARKERS: set<string> := {"package.json", "pnpm-workspace.yaml", "lerna.json", "nx.json", "turbo.json"}
  const PYTHON_MARKERS: set<string> := {"requirements.txt", "pyproject.toml", "setup.py", "Pipfile", "poetry.lock"}

  datatype ProjectType = NodeProject | PythonProject | Mixed

  type Path = seq<string>

  datatype Project = Project(path: Path, kind: ProjectType)

  predicate Noise(name: string) { name in SKIP_DIRS || (name != "" && name[0] == '.') }

  predicate Entered(n: Node) { n.Directory? && !Noise(n.name) }

  function FileNames(entries: seq<Node>): set<string> {
    set e | e in entries && (e.File? || (e.Link? && e.toFile)) :: e.name
  }

  /** The types of the markers present: both makes the project mixed, none makes it no project. */
  function KindOf(entries: seq<Node>): Option<ProjectType> {
    var node, python := FileNames(entries) * NODE_MARKERS != {}, FileNames(entries) * PYTHON_MARKERS != {};
    if node && python then Some(Mixed)
    else if node then Some(NodeProject)
    else if python then Some(PythonProject)
    else None
  }

  // ---- the tree ----

  function Child(entries: seq<Node>, name: string): Option<Node> {
    if entries == [] then None
    else if entries[0].name == name then Some(entries[0])
    else Child(entries[1..], name)
  }

  /** The directory that a path leads to, through readable directories only. */
  function DirectoryAt(n: Node, path: Path): (d: Option<Node>)
    ensures d.Some? ==> d.value.Directory?
    decreases |path|
  {
    if !n.Directory? then None
    else if path == [] then Some(n)
    else if !n.readable then None
    else
      match Child(n.entries, path[0])
      case None => None
      case Some(c) => DirectoryAt(c, path[1..])
  }

  /** What discovery promises: a readable marker directory, not too deep, with no noise on the way to it. */
  ghost predicate IsProject(root: Node, path: Path, maxDepth: int) {
    && |path| <= maxDepth
    && (forall name | name in path :: !Noise(name))
    && DirectoryAt(root, path).Some? && DirectoryAt(root, path).value.readable
    && KindOf(DirectoryAt(root, path).value.entries).Some?
  }

  /** A file system: the entries of a directory have different names. */
  ghost predicate WellNamed(n: Node) {
    n.Directory? ==>
      && (forall i, j | 0 <= i < j < |n.entries| :: n.entries[i].name != n.entries[j].name)
      && (forall i | 0 <= i < |n.entries| :: WellNamed(n.entries[i]))
  }

  function Size(n: Node): nat {
    if n.Directory? then 1 + SizeOfAll(n.entries) else 1
  }

  function SizeOfAll(ns: seq<Node>): nat {
    if ns == [] then 0 else SizeOfAll(ns[..|ns| - 1]) + Size(ns[|ns| - 1])
  }

  lemma {:induction false} ChildOf(entries: seq<Node>, i: nat)
    requires i < |entries| && forall j, k | 0 <= j < k < |entries| :: entries[j].name != entries[k].name
    ensures Child(entries, entries[i].name) == Some(entries[i])
  {
    if i > 0 {
      assert entries[i] == entries[1..][i - 1];
      ChildOf(entries[1..], i - 1);
    }
  }

  lemma {:induction false} ChildIsEntry(entries: seq<Node>, name: string)
    requires Child(entries, name).Some?
    ensures Child(entries, name).value in entries && Child(entries, name).value.name == name
  {
    if entries[0].name != name {
      ChildIsEntry(entries[1..], name);
      assert entries == [entries[0]] + entries[1..];
    }
  }

  /** Going down a path is going down its first part and then the rest. */
  lemma {:induction false} DirectoryAtSplit(n: Node, first: Path, rest: Path)
    ensures DirectoryAt(n, first + rest)
         == if DirectoryAt(n, first).Some? then DirectoryAt(DirectoryAt(n, first).value, rest) else None
    decreases |first|
  {
    hide Child;
    if first == [] {
      assert first + rest == rest;
    } else {
      assert (first + rest)[1..] == first[1..] + rest;
      if n.Directory? && n.readable && Child(n.entries, first[0]).Some? {
        DirectoryAtSplit(Child(n.entries, first[0]).value, first[1..], rest);
      }
    }
  }

  /** One part of a path leads to the directory of that name among the entries of a readable directory. Links are no
      directories. */
  lemma OneStepIff(n: Node, name: string, d: Node)
    requires WellNamed(n)
    ensures DirectoryAt(n, [name]) == Some(d) <==>
            n.Directory? && n.readable && d.Directory? && d.name == name && d in n.entries
    ensures DirectoryAt(n, []) == if n.Directory? then Some(n) else None
  {
    hide Child;
    if n.Directory? && n.readable {
      assert [name][1..] == [];
      if Child(n.entries, name).Some? { ChildIsEntry(n.entries, name); }
      if d in n.entries && d.name == name {
        var i :| 0 <= i < |n.entries| && n.entries[i] == d;
        ChildOf(n.entries, i);
      }
    }
  }

  /** Which marker makes which project. */
  lemma MarkersDecide(entries: seq<Node>)
    ensures var node := exists e | e in entries && (e.File? || (e.Link? && e.toFile)) ::
                          e.name in {"package.json", "pnpm-workspace.yaml", "lerna.json", "nx.json", "turbo.json"};
            var python := exists e | e in entries && (e.File? || (e.Link? && e.toFile)) ::
                            e.name in {"requirements.txt", "pyproject.toml", "setup.py", "Pipfile", "poetry.lock"};
            && (KindOf(entries) == Some(Mixed) <==> node && python)
            && (KindOf(entries) == Some(NodeProject) <==> node && !python)
            && (KindOf(entries) == Some(PythonProject) <==> python && !node)
            && (KindOf(entries) == None <==> !node && !python)
  {
    SomeFile(entries, NODE_MARKERS);
    SomeFile(entries, PYTHON_MARKERS);
  }

  lemma SomeFile(entries: seq<Node>, markers: set<string>)
    ensures FileNames(entries) * markers != {} <==>
            exists e | e in entries && (e.File? || (e.Link? && e.toFile)) :: e.name in markers
  {
    if e :| e in entries && (e.File? || (e.Link? && e.toFile)) && e.name in markers {
      assert e.name in FileNames(entries) * markers;
    }
  }

  lemma {:induction false} SizeOfConcat(a: seq<Node>, b: seq<Node>)
    ensures SizeOfAll(a + b) == SizeOfAll(a) + SizeOfAll(b)
    decreases |b|
  {
    if b == [] {
      assert a + b == a;
    } else {
      SizeOfConcat(a, b[..|b| - 1]);
      assert (a + b)[..|a + b| - 1] == a + b[..|b| - 1];
    }
  }

  // ---- the queue ----

  datatype Item = Item(node: Node, path: Path)

  ghost function Nodes(queue: seq<Item>): (ns: seq<Node>)
    ensures |ns| == |queue| && forall i | 0 <= i < |queue| :: ns[i] == queue[i].node
  {
    seq(|queue|, i requires 0 <= i < |queue| => queue[i].node)
  }

  ghost predicate Clean(path: Path) { forall name | name in path :: !Noise(name) }

  /** Everything queued is a directory of the tree, under the path it is queued with. */
  ghost predicate Reached(root: Node, item: Item) {
    && item.node.Directory? && WellNamed(item.node) && Clean(item.path)
    && DirectoryAt(root, item.path) == Some(item.node)
  }

  ghost predicate AllReached(root: Node, queue: seq<Item>) {
    forall item | item in queue :: Reached(root, item)
  }

  /** A project is still to come when it lies in a directory that is queued. */
  ghost predicate Ahead(queue: seq<Item>, path: Path) {
    exists item | item in queue :: item.path <= path
  }

  lemma StepDown(root: Node, item: Item, e: Node)
    requires Reached(root, item) && item.node.readable && e in item.node.entries && Entered(e)
    ensures Reached(root, Item(e, item.path + [e.name]))
  {
    hide Child, Noise;
    var i :| 0 <= i < |item.node.entries| && item.node.entries[i] == e;
    ChildOf(item.node.entries, i);
    DirectoryAtSplit(root, item.path, [e.name]);
    assert DirectoryAt(e, []) == Some(e);
    assert [e.name][1..] == [];
  }

  /** A directory below a queued one lies in one of the entries that are entered. */
  lemma GoesThrough(root: Node, item: Item, path: Path) returns (e: Node)
    requires Reached(root, item) && item.path < path && Clean(path) && DirectoryAt(root, path).Some?
    ensures item.node.readable && e in item.node.entries && Entered(e) && item.path + [e.name] <= path
  {
    hide Child, Noise;
    var rest := path[|item.path|..];
    assert path == item.path + rest;
    DirectoryAtSplit(root, item.path, rest);
    ChildIsEntry(item.node.entries, rest[0]);
    e := Child(item.node.entries, rest[0]).value;
    assert path[|item.path|] == e.name && e.name in path;
  }

  /** The items that one directory adds to the queue. */
  function Entries(entries: seq<Node>, path: Path): seq<Item> {
    if entries == [] then []
    else
      var last := entries[|entries| - 1];
      Entries(entries[..|entries| - 1], path) + if Entered(last) then [Item(last, path + [last.name])] else []
  }

  lemma {:induction false} EntriesAre(entries: seq<Node>, path: Path)
    ensures forall item :: item in Entries(entries, path) <==>
              item.node in entries && Entered(item.node) && item.path == path + [item.node.name]
    ensures SizeOfAll(Nodes(Entries(entries, path))) <= SizeOfAll(entries)
  {
    hide Noise, Size;
    if entries != [] {
      var init, last := entries[..|entries| - 1], entries[|entries| - 1];
      EntriesAre(init, path);
      assert entries == init + [last];
      var added := Entries(init, path);
      if Entered(last) {
        assert Nodes(Entries(entries, path)) == Nodes(added) + [last];
        SizeOfConcat(Nodes(added), [last]);
      } else {
        assert Entries(entries, path) == added;
      }
    }
  }

  // ---- the walk ----

  type Found = Dict<Path, Project>

  /** The dict holds projects of the tree under their own paths. */
  ghost predicate Sound(root: Node, found: Found, maxDepth: int) {
    forall path | path in found.items ::
      IsProject(root, path, maxDepth)
      && found.items[path] == Project(path, KindOf(DirectoryAt(root, path).value.entries).value)
  }

  ghost predicate Complete(root: Node, found: Found, queue: seq<Item>, maxDepth: int) {
    forall path | IsProject(root, path, maxDepth) :: path in found.items || Ahead(queue, path)
  }

  method Expand(entries: seq<Node>, path: Path) returns (items: seq<Item>)
    ensures items == Entries(entries, path)
  {
    items := [];
    for i := 0 to |entries|
      invariant items == Entries(entries[..i], path)
    {
      assert entries[..i + 1][..i] == entries[..i];
      if Entered(entries[i]) { items := items + [Item(entries[i], path + [entries[i].name])]; }
    }
    assert entries[..|entries|] == entries;
  }

  lemma Barren(root: Node, item: Item, path: Path, maxDepth: int)
    requires Reached(root, item) && (|item.path| > maxDepth || !item.node.readable) && item.path <= path
    ensures !IsProject(root, path, maxDepth)
  {
    hide KindOf, Noise, WellNamed;
    if IsProject(root, path, maxDepth) && |path| > |item.path| {
      var e := GoesThrough(root, item, path);
    } else {
      assert |path| > |item.path| || path == item.path;
    }
  }

  /** A directory that is too deep or cannot be read hides nothing that was promised. */
  lemma NothingBehind(root: Node, found: Found, queue: seq<Item>, maxDepth: int)
    requires queue != [] && Reached(root, queue[0]) && Complete(root, found, queue, maxDepth)
    requires |queue[0].path| > maxDepth || !queue[0].node.readable
    ensures Complete(root, found, queue[1..], maxDepth)
  {
    hide KindOf, Noise, WellNamed;
    forall path | IsProject(root, path, maxDepth) && path !in found.items ensures Ahead(queue[1..], path) {
      var item :| item in queue && item.path <= path;
      if item == queue[0] {
        Barren(root, item, path, maxDepth);
        assert false;
      }
      assert item in queue[1..];
    }
  }

  /** A visited directory is either the project itself or has it behind one of its entries. */
  lemma VisitCompletes(root: Node, found: Found, after: Found, queue: seq<Item>, maxDepth: int)
    requires queue != [] && Reached(root, queue[0]) && Complete(root, found, queue, maxDepth)
    requires forall path | path in found.items :: path in after.items
    requires IsProject(root, queue[0].path, maxDepth) ==> queue[0].path in after.items
    ensures Complete(root, after, queue[1..] + Entries(queue[0].node.entries, queue[0].path), maxDepth)
  {
    hide KindOf, Noise, WellNamed, Entries;
    var next := queue[1..] + Entries(queue[0].node.entries, queue[0].path);
    EntriesAre(queue[0].node.entries, queue[0].path);
    forall path | IsProject(root, path, maxDepth) && path !in after.items ensures Ahead(next, path) {
      var item :| item in queue && item.path <= path;
      if item == queue[0] {
        if item.path == path {
          assert false;
        }
        assert |item.path| != |path|;
        var e := GoesThrough(root, item, path);
        assert Item(e, item.path + [e.name]) in next;
      } else {
        assert item in queue[1..];
        assert item in next;
      }
    }
  }

  lemma VisitIsSound(root: Node, found: Found, item: Item, maxDepth: int)
    requires Sound(root, found, maxDepth) && Reached(root, item) && |item.path| <= maxDepth && item.node.readable
    requires KindOf(item.node.entries).Some?
    ensures IsProject(root, item.path, maxDepth)
    ensures Sound(root, found.Put(item.path, Project(item.path, KindOf(item.node.entries).value)), maxDepth)
  {
    hide KindOf, Noise, WellNamed;
  }

  lemma ExpandReached(root: Node, queue: seq<Item>)
    requires queue != [] && AllReached(root, queue) && Reached(root, queue[0]) && queue[0].node.readable
    ensures AllReached(root, queue[1..] + Entries(queue[0].node.entries, queue[0].path))
  {
    hide Entries, Entered, WellNamed, DirectoryAt, Noise;
    var item := queue[0];
    EntriesAre(item.node.entries, item.path);
    forall next | next in queue[1..] + Entries(item.node.entries, item.path) ensures Reached(root, next) {
      if next in Entries(item.node.entries, item.path) {
        StepDown(root, item, next.node);
        assert next == Item(next.node, item.path + [next.node.name]);
      } else {
        assert next in queue[1..] && next in queue;
      }
    }
  }

  lemma PopShrinks(queue: seq<Item>)
    requires queue != []
    ensures SizeOfAll(Nodes(queue)) == Size(queue[0].node) + SizeOfAll(Nodes(queue[1..]))
  {
    hide Size;
    assert Nodes(queue) == [queue[0].node] + Nodes(queue[1..]);
    SizeOfConcat([queue[0].node], Nodes(queue[1..]));
    assert [queue[0].node][..0] == [];
  }

  lemma ExpandShrinks(queue: seq<Item>)
    requires queue != [] && queue[0].node.Directory?
    ensures SizeOfAll(Nodes(queue[1..] + Entries(queue[0].node.entries, queue[0].path))) < SizeOfAll(Nodes(queue))
  {
    hide Entries, SizeOfAll;
    var next := Entries(queue[0].node.entries, queue[0].path);
    PopShrinks(queue);
    EntriesAre(queue[0].node.entries, queue[0].path);
    assert Nodes(queue[1..] + next) == Nodes(queue[1..]) + Nodes(next);
    SizeOfConcat(Nodes(queue[1..]), Nodes(next));
  }

  lemma SizeIsPositive(n: Node)
    ensures Size(n) > 0
  {
  }

  lemma StartIsComplete(root: Node, maxDepth: int)
    requires root.Directory? && WellNamed(root)
    ensures Reached(root, Item(root, [])) && Complete(root, DictRep([], map[]), [Item(root, [])], maxDepth)
  {
    assert Item(root, []) in [Item(root, [])];
    forall path | IsProject(root, path, maxDepth) ensures Ahead([Item(root, [])], path) {
      assert Item(root, []).path <= path;
    }
  }

  method Walk(root: Node, maxDepth: int) returns (found: Found)
    requires WellNamed(root) && root.Directory?
    ensures Sound(root, found, maxDepth)
    ensures forall path :: path in found.items <==> IsProject(root, path, maxDepth)
  {
    hide Reached, IsProject, KindOf, Entries, Size, SizeOfAll, WellNamed, DirectoryAt, Ahead, Noise;
    found := DictRep([], map[]);
    var queue := [Item(root, [])];
    StartIsComplete(root, maxDepth);
    while queue != []
      invariant AllReached(root, queue) && Sound(root, found, maxDepth) && Complete(root, found, queue, maxDepth)
      decreases SizeOfAll(Nodes(queue))
    {
      var item := queue[0];
      assert Reached(root, item);
      found, queue := Visit(root, found, queue, maxDepth);
    }
    NothingAhead(root, found, maxDepth);
  }

  lemma NothingAhead(root: Node, found: Found, maxDepth: int)
    requires Sound(root, found, maxDepth) && Complete(root, found, [], maxDepth)
    ensures forall path :: path in found.items <==> IsProject(root, path, maxDepth)
  {
    hide IsProject, KindOf;
  }

  /** One turn of the queue. */
  method Visit(ghost root: Node, found: Found, queue: seq<Item>, maxDepth: int) returns (after: Found, rest: seq<Item>)
    requires queue != [] && AllReached(root, queue) && Reached(root, queue[0])
    requires Sound(root, found, maxDepth) && Complete(root, found, queue, maxDepth)
    ensures AllReached(root, rest) && Sound(root, after, maxDepth) && Complete(root, after, rest, maxDepth)
    ensures SizeOfAll(Nodes(rest)) < SizeOfAll(Nodes(queue))
  {
    hide IsProject, KindOf, Entries, Size, SizeOfAll, WellNamed, DirectoryAt, Noise, Sound, Complete;
    after := found;
    var current := queue[0];
    rest := queue[1..];
    PopShrinks(queue);
    SizeIsPositive(current.node);
    if |current.path| > maxDepth {
      NothingBehind(root, found, queue, maxDepth);
      return;
    }
    if !current.node.readable {
      NothingBehind(root, found, queue, maxDepth);
      return;
    }
    var kind := KindOf(current.node.entries);
    if kind.Some? {
      after := found.Put(current.path, Project(current.path, kind.value));
      VisitIsSound(root, found, current, maxDepth);
    }
    ProjectHasKind(root, current, maxDepth);
    var items := Expand(current.node.entries, current.path);
    rest := rest + items;
    VisitCompletes(root, found, after, queue, maxDepth);
    ExpandReached(root, queue);
    ExpandShrinks(queue);
  }

  lemma ProjectHasKind(root: Node, item: Item, maxDepth: int)
    requires Reached(root, item) && item.node.readable
    ensures IsProject(root, item.path, maxDepth) ==> KindOf(item.node.entries).Some?
  {
    hide KindOf, Noise, WellNamed;
  }

  // ---- the result ----

  /** The path as text, below the text of the root. */
  function PathText(root: string, path: Path): string
    decreases |path|
  {
    if path == [] then root else PathText(root, path[..|path| - 1]) + "/" + path[|path| - 1]
  }

  /** `str(path)`: the parts joined by slashes. */
  lemma PathTextIs(root: string, path: Path, name: string)
    ensures PathText(root, []) == root && PathText(root, path + [name]) == PathText(root, path) + "/" + name
  {
    assert (path + [name])[..|path|] == path;
  }

  function ByText(root: string): (Project, Project) -> bool {
    (a: Project, b: Project) => TextOrder.Le(PathText(root, a.path), PathText(root, b.path))
  }

  lemma ByTextPreorder(root: string)
    ensures TotalPreorder(ByText(root))
  {
    hide PathText, TextOrder.Le;
    var le := ByText(root);
    forall a, b ensures le(a, b) || le(b, a) { TextOrder.Total(PathText(root, a.path), PathText(root, b.path)); }
    forall a, b, c | le(a, b) && le(b, c) ensures le(a, c) {
      TextOrder.Transitive(PathText(root, a.path), PathText(root, b.path), PathText(root, c.path));
    }
  }

  /** A project of the tree, with the type that its markers give. */
  ghost predicate Promised(root: Node, p: Project, maxDepth: int) {
    IsProject(root, p.path, maxDepth) && p.kind == KindOf(DirectoryAt(root, p.path).value.entries).value
  }

  lemma NoiseIff(name: string)
    ensures Noise(name) <==>
            (name != "" && name[0] == '.')
            || name in {"node_modules", "__pycache__", "venv", "dist", "build", "out", "coverage", "site-packages",
                        "eggs"}
  {
    if name in SKIP_DIRS && name[0] != '.' { SkippedIs(name); }
  }

  lemma SkippedIs(name: string)
    requires name in SKIP_DIRS && name[0] != '.'
    ensures name in {"node_modules", "__pycache__", "venv", "dist", "build", "out", "coverage", "site-packages", "eggs"}
  {
  }

  /** A directory is promised when markers in it say what it is, when it can be read and is not too deep, and when no
      directory on the way has a dot name or a name that is skipped. */
  lemma PromisedIff(root: Node, p: Project, maxDepth: int)
    ensures Promised(root, p, maxDepth) <==>
            && |p.path| <= maxDepth
            && (forall name | name in p.path ::
                  && (name == "" || name[0] != '.')
                  && name !in {"node_modules", "__pycache__", "venv", "dist", "build", "out", "coverage",
                               "site-packages", "eggs"})
            && var d := DirectoryAt(root, p.path);
            && d.Some? && d.value.readable && KindOf(d.value.entries) == Some(p.kind)
  {
    hide KindOf, DirectoryAt;
    forall name: string
      ensures Noise(name) <==>
              (name != "" && name[0] == '.')
              || name in {"node_modules", "__pycache__", "venv", "dist", "build", "out", "coverage", "site-packages",
                          "eggs"}
    {
      NoiseIff(name);
    }
  }

  /** `discover_projects`: exactly the projects of the tree, each once with its type, in the order of their paths. */
  method DiscoverProjects(root: Node, rootText: string, maxDepth: int) returns (projects: seq<Project>)
    requires WellNamed(root)
    ensures forall p :: p in projects <==>
              Promised(root, p, maxDepth)
    ensures forall i, j | 0 <= i < j < |projects| ::
              projects[i].path != projects[j].path
              && TextOrder.Le(PathText(rootText, projects[i].path), PathText(rootText, projects[j].path))
  {
    hide KindOf, DirectoryAt, Noise, StableSort, PathText, TextOrder.Le;
    if !root.Directory? {
      NoProjects(root, maxDepth);
      return [];
    }
    var found := Walk(root, maxDepth);
    projects := StableSort(found.Values(), ByText(rootText));
    ResultIsExact(root, found, maxDepth);
    SortMembers(found.Values(), ByText(rootText));
    ByTextPreorder(rootText);
    SortSorted(found.Values(), ByText(rootText));
    SortDistinct(found.Values(), ByText(rootText));
    OncePerPath(root, projects, maxDepth);
  }

  lemma NoProjects(root: Node, maxDepth: int)
    requires !root.Directory?
    ensures forall path :: !IsProject(root, path, maxDepth)
  {
  }

  lemma ResultIsExact(root: Node, found: Found, maxDepth: int)
    requires Sound(root, found, maxDepth) && forall path :: path in found.items <==> IsProject(root, path, maxDepth)
    ensures forall p :: p in found.Values() <==>
              Promised(root, p, maxDepth)
    ensures forall i, j | 0 <= i < j < |found.Values()| :: found.Values()[i] != found.Values()[j]
  {
    hide KindOf, DirectoryAt, Noise;
    var vs := found.Values();
    forall i | 0 <= i < |vs| ensures vs[i].path == found.keys[i] && vs[i] == found.items[found.keys[i]] {
      assert found.keys[i] in found.items;
    }
    forall p: Project | Promised(root, p, maxDepth)
      ensures p in vs
    {
      assert p.path in found.keys;
      var i :| 0 <= i < |found.keys| && found.keys[i] == p.path;
      assert vs[i] == p;
    }
  }

  lemma OncePerPath(root: Node, projects: seq<Project>, maxDepth: int)
    requires forall p | p in projects ::
               Promised(root, p, maxDepth)
    requires forall i, j | 0 <= i < j < |projects| :: projects[i] != projects[j]
    ensures forall i, j | 0 <= i < j < |projects| :: projects[i].path != projects[j].path
  {
    hide KindOf, DirectoryAt, IsProject;
    forall i, j | 0 <= i < j < |projects| ensures projects[i].path != projects[j].path {
      assert projects[i] in projects && projects[j] in projects;
    }
  }

  /** A small workspace: the root and one directory below it are projects, and what is installed for them is not. */
  lemma SmallWorkspace(api: Node, modules: Node, root: Node)
    requires api == Directory("api", true, [File("setup.py"), Link("package.json", true)])
    requires modules == Directory("node_modules", true, [File("package.json")])
    requires root == Directory("repo", true, [File("nx.json"), api, modules])
    ensures WellNamed(root)
    ensures Promised(root, Project([], NodeProject), 1) && Promised(root, Project(["api"], Mixed), 1)
    ensures !Promised(root, Project(["api"], Mixed), 0) && !Promised(root, Project(["node_modules"], NodeProject), 1)
  {
    hide KindOf, DirectoryAt, Promised, WellNamed;
    SmallIsNamed(api, modules, root);
    assert root.entries[1] == api && api in root.entries;
    OneStepIff(root, "api", api);
    SmallKinds(api, root);
    PromisedIff(root, Project([], NodeProject), 1);
    PromisedIff(root, Project(["api"], Mixed), 1);
    PromisedIff(root, Project(["api"], Mixed), 0);
    PromisedIff(root, Project(["node_modules"], NodeProject), 1);
    assert "node_modules" in Project(["node_modules"], NodeProject).path;
  }

  lemma SmallIsNamed(api: Node, modules: Node, root: Node)
    requires api == Directory("api", true, [File("setup.py"), Link("package.json", true)])
    requires modules == Directory("node_modules", true, [File("package.json")])
    requires root == Directory("repo", true, [File("nx.json"), api, modules])
    ensures WellNamed(root)
  {
    assert WellNamed(api) && WellNamed(modules) && WellNamed(File("nx.json"));
  }

  lemma SmallKinds(api: Node, root: Node)
    requires api == Directory("api", true, [File("setup.py"), Link("package.json", true)])
    requires root.Directory? && |root.entries| == 3 && root.entries[0] == File("nx.json")
    requires root.entries[1] == api && root.entries[2].Directory?
    ensures KindOf(root.entries) == Some(NodeProject) && KindOf(api.entries) == Some(Mixed)
  {
    hide KindOf;
    MarkersDecide(root.entries);
    MarkersDecide(api.entries);
    assert api.entries[0] == File("setup.py") && api.entries[1] == Link("package.json", true);
    assert root.entries[0] in root.entries;
  }
}
