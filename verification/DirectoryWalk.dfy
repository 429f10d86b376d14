/**
 The directory walk of ngx_cache_purge_walk.c as one recursive traversal of a finite tree. The tree says
 what the file system and the allocator answer: which directories open, what each entry turns out to be,
 which reads and closes fail, and which allocations succeed when the walk asks for one.
 */
module DirectoryWalk {
  import opened Bytes
  import opened Paths
  import opened Sequences

  datatype Dir = Dir(open: Opening, items: seq<Item>, readFails: bool, closeFails: bool)

  // NoMemory ends the walk; a refused directory is skipped, and counted unless it just disappeared.
  datatype Opening = Opens | NoMemory | Refused(counted: bool)

  // `room`: a larger path buffer can be allocated for this entry, if one is needed.
  datatype Item = Item(name: Bytes, room: bool, node: Node)

  datatype Node =
    | Unknown(counted: bool)       // the entry's type cannot be read, or it is a link (not counted)
    | Special                      // neither file nor directory
    | Lost(counted: bool)          // a file whose metadata cannot be read
    | File(errors: nat)            // a file, and the scan errors its visitor runs into
    | Directory(dir: Dir)

  datatype Event = Opened(path: Bytes) | Visited(path: Bytes) | Closed(path: Bytes)

  // `capacity` is that of the path buffer, 0 when there is none.
  datatype Walk = Walk(trace: seq<Event>, errors: nat, capacity: nat, aborted: bool)

  // `prune` is always set in the source; without it nothing is skipped.
  datatype Config = Config(root: Bytes, names: seq<Bytes>, prune: bool) {
    predicate Skips(path: Bytes) {
      prune && Protected(path, root, names)
    }
  }

  predicate Dot(name: Bytes) {
    name == ['.'] || name == ['.', '.']
  }

  /** walk_name: the buffer grows to twice what is needed when the path and its terminator do not fit. */
  function Capacity(was: nat, size: nat): nat {
    if was <= size then 2 * (size + 1) else was
  }

  function Child(path: Bytes, name: Bytes): Bytes {
    path + ['/'] + name
  }

  // ---- the traversal ----

  function WalkDir(c: Config, d: Dir, path: Bytes, w: Walk): Walk
    decreases d, 0
  {
    match d.open
    case NoMemory => w.(errors := w.errors + 1, aborted := true)
    case Refused(counted) => w.(errors := w.errors + Flag(counted))
    case Opens => Leave(d, path, WalkItems(c, d, d.items, path, Enter(path, w)))
  }

  function Enter(path: Bytes, w: Walk): Walk {
    w.(trace := w.trace + [Opened(path)])
  }

  function Leave(d: Dir, path: Bytes, w: Walk): Walk {
    w.(trace := w.trace + [Closed(path)], errors := w.errors + Flag(d.closeFails))
  }

  /** The entries of `d` from `items` on; an aborted walk reads no further. */
  function WalkItems(c: Config, d: Dir, items: seq<Item>, path: Bytes, w: Walk): Walk
    decreases items, 1
  {
    if w.aborted then w
    else if items == [] then w.(errors := w.errors + Flag(d.readFails))
    else WalkItems(c, d, items[1..], path, WalkItem(c, items[0], path, w))
  }

  function WalkItem(c: Config, item: Item, path: Bytes, w: Walk): Walk
    decreases item, 2
  {
    var size := |path| + 1 + |item.name|;
    if Dot(item.name) then w
    else if w.capacity <= size && !item.room then w.(errors := w.errors + 1, aborted := true)
    else WalkNode(c, item.node, Child(path, item.name), w.(capacity := Capacity(w.capacity, size)))
  }

  function WalkNode(c: Config, node: Node, path: Bytes, w: Walk): Walk
    decreases node, 1
  {
    match node
    case Unknown(counted) => w.(errors := w.errors + Flag(counted))
    case Special => w
    case Lost(counted) => w.(errors := w.errors + Flag(counted))
    case File(errors) => w.(trace := w.trace + [Visited(path)], errors := w.errors + errors)
    case Directory(dir) => if c.Skips(path) then w else WalkDir(c, dir, path, w)
  }

  /** The whole walk: the root's name, then the root. */
  function WalkRoot(c: Config, d: Dir, room: bool, capacity: nat): Walk {
    if capacity <= |c.root| && !room then Walk([], 1, capacity, true)
    else WalkDir(c, d, c.root, Walk([], 0, Capacity(capacity, |c.root|), false))
  }

  // ---- every opened directory is closed once, innermost first ----

  predicate Below(path: Bytes, dir: Bytes) {
    |path| > |dir| && path[..|dir|] == dir && path[|dir|] == '/'
  }

  /** The directories open after a trace, or None when the trace does not nest. */
  function Replay(trace: seq<Event>): Option<seq<Bytes>> {
    if trace == [] then Some([])
    else
      match Replay(trace[..|trace| - 1])
      case None => None
      case Some(open) => After(open, trace[|trace| - 1])
  }

  function After(open: seq<Bytes>, e: Event): Option<seq<Bytes>> {
    match e
    case Opened(path) => if open == [] || Below(path, open[|open| - 1]) then Some(open + [path]) else None
    case Visited(path) => if open != [] && Below(path, open[|open| - 1]) then Some(open) else None
    case Closed(path) => if open != [] && open[|open| - 1] == path then Some(open[..|open| - 1]) else None
  }

  lemma ReplayOne(trace: seq<Event>, e: Event)
    requires Replay(trace).Some?
    ensures Replay(trace + [e]) == After(Replay(trace).value, e)
  {
    assert (trace + [e])[..|trace|] == trace;
  }

  lemma ChildBelow(path: Bytes, name: Bytes)
    ensures Below(Child(path, name), path)
  {
  }

  lemma {:induction false} DirNests(c: Config, d: Dir, path: Bytes, w: Walk, open: seq<Bytes>)
    requires Replay(w.trace) == Some(open) && (open == [] || Below(path, open[|open| - 1]))
    ensures Replay(WalkDir(c, d, path, w).trace) == Some(open)
    decreases d, 0
  {
    if d.open == Opens {
      ReplayOne(w.trace, Opened(path));
      var inner := WalkItems(c, d, d.items, path, Enter(path, w));
      ItemsNest(c, d, d.items, path, Enter(path, w), open + [path]);
      ReplayOne(inner.trace, Closed(path));
      assert (open + [path])[..|open|] == open;
    }
  }

  lemma {:induction false} ItemsNest(c: Config, d: Dir, items: seq<Item>, path: Bytes, w: Walk, open: seq<Bytes>)
    requires Replay(w.trace) == Some(open) && open != [] && open[|open| - 1] == path
    ensures Replay(WalkItems(c, d, items, path, w).trace) == Some(open)
    decreases items, 1
  {
    if !w.aborted && items != [] {
      ItemNests(c, items[0], path, w, open);
      ItemsNest(c, d, items[1..], path, WalkItem(c, items[0], path, w), open);
    }
  }

  lemma {:induction false} ItemNests(c: Config, item: Item, path: Bytes, w: Walk, open: seq<Bytes>)
    requires Replay(w.trace) == Some(open) && open != [] && open[|open| - 1] == path
    ensures Replay(WalkItem(c, item, path, w).trace) == Some(open)
    decreases item, 2
  {
    var child := Child(path, item.name);
    ChildBelow(path, item.name);
    ReplayOne(w.trace, Visited(child));
    match item.node
    case Directory(dir) => DirNests(c, dir, child, w.(capacity := Capacity(w.capacity, |child|)), open);
    case _ =>
  }

  /**
   Whatever fails, the trace of a walk nests: every directory that was opened is closed once, innermost
   first, also when the walk is aborted, and every visit happens in the directory on top.
   */
  lemma WalkNests(c: Config, d: Dir, room: bool, capacity: nat)
    ensures Replay(WalkRoot(c, d, room, capacity).trace) == Some([])
  {
    if !(capacity <= |c.root| && !room) {
      DirNests(c, d, c.root, Walk([], 0, Capacity(capacity, |c.root|), false), []);
    }
  }

  // ---- pruning loses nothing ----

  /** The visited files that are not protected, in order: those a cleanup may delete. */
  function Kept(c: Config, trace: seq<Event>): seq<Bytes> {
    if trace == [] then [] else Kept(c, trace[..|trace| - 1]) + KeptOf(c, trace[|trace| - 1])
  }

  function KeptOf(c: Config, e: Event): seq<Bytes> {
    if e.Visited? && !Protected(e.path, c.root, c.names) then [e.path] else []
  }

  lemma KeptOne(c: Config, trace: seq<Event>, e: Event)
    ensures Kept(c, trace + [e]) == Kept(c, trace) + KeptOf(c, e)
  {
    assert (trace + [e])[..|trace|] == trace;
  }

  /** Below a protected directory there is nothing to keep, however it is walked. */
  lemma {:induction false} ProtectedDirKeeps(c: Config, d: Dir, path: Bytes, w: Walk)
    requires Contains(path, c.root) && Protected(path, c.root, c.names)
    ensures Kept(c, WalkDir(c, d, path, w).trace) == Kept(c, w.trace)
    decreases d, 0
  {
    if d.open == Opens {
      KeptOne(c, w.trace, Opened(path));
      ProtectedItemsKeep(c, d, d.items, path, Enter(path, w));
      KeptOne(c, WalkItems(c, d, d.items, path, Enter(path, w)).trace, Closed(path));
    }
  }

  lemma {:induction false} ProtectedItemsKeep(c: Config, d: Dir, items: seq<Item>, path: Bytes, w: Walk)
    requires Contains(path, c.root) && Protected(path, c.root, c.names)
    ensures Kept(c, WalkItems(c, d, items, path, w).trace) == Kept(c, w.trace)
    decreases items, 1
  {
    if !w.aborted && items != [] {
      ProtectedItemKeeps(c, items[0], path, w);
      ProtectedItemsKeep(c, d, items[1..], path, WalkItem(c, items[0], path, w));
    }
  }

  lemma {:induction false} ProtectedItemKeeps(c: Config, item: Item, path: Bytes, w: Walk)
    requires Contains(path, c.root) && Protected(path, c.root, c.names)
    ensures Kept(c, WalkItem(c, item, path, w).trace) == Kept(c, w.trace)
    decreases item, 2
  {
    var child := Child(path, item.name);
    ChildProtected(c, path, item.name);
    ProtectedNodeKeeps(c, item.node, child, w.(capacity := Capacity(w.capacity, |child|)));
  }

  lemma ChildContained(c: Config, path: Bytes, name: Bytes)
    requires Contains(path, c.root)
    ensures Contains(Child(path, name), c.root)
  {
    EntryContained(path, name, c.root);
  }

  lemma ChildProtected(c: Config, path: Bytes, name: Bytes)
    requires Contains(path, c.root) && Protected(path, c.root, c.names)
    ensures Contains(Child(path, name), c.root) && Protected(Child(path, name), c.root, c.names)
  {
    EntryContained(path, name, c.root);
    ProtectedBelow(Child(path, name), path, c.root, c.names);
  }

  lemma {:induction false} ProtectedNodeKeeps(c: Config, node: Node, path: Bytes, w: Walk)
    requires Contains(path, c.root) && Protected(path, c.root, c.names)
    ensures Kept(c, WalkNode(c, node, path, w).trace) == Kept(c, w.trace)
    decreases node, 1
  {
    match node
    case File(_) => KeptOne(c, w.trace, Visited(path));
    case Directory(dir) => ProtectedDirKeeps(c, dir, path, w);
    case _ =>
  }

  /** Every allocation the walk may ask for succeeds. */
  predicate Roomy(d: Dir)
    decreases d, 0
  {
    d.open != NoMemory && RoomyItems(d.items)
  }

  predicate RoomyItems(items: seq<Item>)
    decreases items, 0
  {
    items == [] || (items[0].room && (items[0].node.Directory? ==> Roomy(items[0].node.dir)) && RoomyItems(items[1..]))
  }

  /** Two walks have kept the same files and are both still going. */
  ghost predicate Same(c: Config, v: Walk, w: Walk) {
    !v.aborted && !w.aborted && Kept(c, v.trace) == Kept(c, w.trace)
  }

  /** `c` prunes, `f` walks everything. */
  ghost predicate Pruned(c: Config, f: Config) {
    c.prune && !f.prune && f == c.(prune := false)
  }

  lemma {:induction false} SameDir(c: Config, f: Config, d: Dir, path: Bytes, v: Walk, w: Walk)
    requires Pruned(c, f) && Roomy(d) && Contains(path, c.root) && Same(c, v, w)
    ensures Same(c, WalkDir(c, d, path, v), WalkDir(f, d, path, w))
    decreases d, 0
  {
    if d.open == Opens {
      KeptOne(c, v.trace, Opened(path));
      KeptOne(c, w.trace, Opened(path));
      SameItems(c, f, d, d.items, path, Enter(path, v), Enter(path, w));
      KeptOne(c, WalkItems(c, d, d.items, path, Enter(path, v)).trace, Closed(path));
      KeptOne(c, WalkItems(f, d, d.items, path, Enter(path, w)).trace, Closed(path));
    }
  }

  lemma {:induction false} SameItems(c: Config, f: Config, d: Dir, items: seq<Item>, path: Bytes, v: Walk, w: Walk)
    requires Pruned(c, f) && RoomyItems(items) && Contains(path, c.root) && Same(c, v, w)
    ensures Same(c, WalkItems(c, d, items, path, v), WalkItems(f, d, items, path, w))
    decreases items, 1
  {
    if items != [] {
      SameItem(c, f, items[0], path, v, w);
      SameItems(c, f, d, items[1..], path, WalkItem(c, items[0], path, v), WalkItem(f, items[0], path, w));
    }
  }

  lemma {:induction false} SameItem(c: Config, f: Config, item: Item, path: Bytes, v: Walk, w: Walk)
    requires Pruned(c, f) && Contains(path, c.root) && Same(c, v, w)
    requires item.room && (item.node.Directory? ==> Roomy(item.node.dir))
    ensures Same(c, WalkItem(c, item, path, v), WalkItem(f, item, path, w))
    decreases item, 2
  {
    var child := Child(path, item.name);
    ChildContained(c, path, item.name);
    if !Dot(item.name) {
      SameNode(c, f, item.node, child, v.(capacity := Capacity(v.capacity, |child|)),
               w.(capacity := Capacity(w.capacity, |child|)));
    }
  }

  lemma {:induction false} SameNode(c: Config, f: Config, node: Node, path: Bytes, v: Walk, w: Walk)
    requires Pruned(c, f) && Contains(path, c.root) && Same(c, v, w)
    requires node.Directory? ==> Roomy(node.dir)
    ensures Same(c, WalkNode(c, node, path, v), WalkNode(f, node, path, w))
    decreases node, 1
  {
    match node
    case File(_) =>
      KeptOne(c, v.trace, Visited(path));
      KeptOne(c, w.trace, Visited(path));
    case Directory(dir) =>
      assert !f.Skips(path);
      if c.Skips(path) {
        ProtectedWalk(c, f, dir, path, w);
      } else {
        SameDir(c, f, dir, path, v, w);
      }
    case _ =>
  }

  lemma ProtectedWalk(c: Config, f: Config, d: Dir, path: Bytes, w: Walk)
    requires Pruned(c, f) && Roomy(d) && Contains(path, c.root) && Protected(path, c.root, c.names) && !w.aborted
    ensures Same(c, w, WalkDir(f, d, path, w))
  {
    ProtectedDirKeeps(f, d, path, w);
    SameConfigKept(c, f, w.trace);
    SameConfigKept(c, f, WalkDir(f, d, path, w).trace);
    RoomyGoesOn(f, d, path, w);
  }

  lemma {:induction false} SameConfigKept(c: Config, f: Config, trace: seq<Event>)
    requires f == c.(prune := false)
    ensures Kept(c, trace) == Kept(f, trace)
  {
    if trace != [] {
      SameConfigKept(c, f, trace[..|trace| - 1]);
    }
  }

  lemma {:induction false} RoomyGoesOn(c: Config, d: Dir, path: Bytes, w: Walk)
    requires Roomy(d) && !w.aborted
    ensures !WalkDir(c, d, path, w).aborted
    decreases d, 0
  {
    if d.open == Opens {
      RoomyItemsGoOn(c, d, d.items, path, Enter(path, w));
    }
  }

  lemma {:induction false} RoomyItemsGoOn(c: Config, d: Dir, items: seq<Item>, path: Bytes, w: Walk)
    requires RoomyItems(items) && !w.aborted
    ensures !WalkItems(c, d, items, path, w).aborted
    decreases items, 2
  {
    if items != [] {
      var child := Child(path, items[0].name);
      RoomyNodeGoesOn(c, items[0].node, child, w.(capacity := Capacity(w.capacity, |child|)));
      RoomyItemsGoOn(c, d, items[1..], path, WalkItem(c, items[0], path, w));
    }
  }

  lemma {:induction false} RoomyNodeGoesOn(c: Config, node: Node, path: Bytes, w: Walk)
    requires (node.Directory? ==> Roomy(node.dir)) && !w.aborted
    ensures !WalkNode(c, node, path, w).aborted
    decreases node, 1
  {
    if node.Directory? {
      RoomyGoesOn(c, node.dir, path, w);
    }
  }

  /**
   A walk that does not open protected directories visits, in the same order, exactly the unprotected files
   that a walk of everything visits, as long as memory does not run out.
   */
  lemma PruningLosesNothing(c: Config, d: Dir, capacity: nat)
    requires c.prune && c.root != [] && Roomy(d)
    ensures Kept(c, WalkRoot(c, d, true, capacity).trace) ==
            Kept(c, WalkRoot(c.(prune := false), d, true, capacity).trace)
  {
    ContainsItself(c.root);
    var start := Walk([], 0, Capacity(capacity, |c.root|), false);
    SameDir(c, c.(prune := false), d, c.root, start, start);
  }

  // ---- a walk without errors has seen everything ----

  /**
   The files of a tree that are there to be visited: what has disappeared in the meantime, links and special
   entries do not count, everything else does, whether or not it can be read.
   */
  function Files(d: Dir, path: Bytes): seq<Bytes>
    decreases d, 0
  {
    if d.open == Refused(false) then [] else FilesOf(d.items, path)
  }

  function FilesOf(items: seq<Item>, path: Bytes): seq<Bytes>
    decreases items, 1
  {
    if items == [] then []
    else
      (if Dot(items[0].name) then [] else FilesAt(items[0].node, Child(path, items[0].name)))
      + FilesOf(items[1..], path)
  }

  function FilesAt(node: Node, path: Bytes): seq<Bytes>
    decreases node, 1
  {
    match node
    case Unknown(counted) => if counted then [path] else []
    case Special => []
    case Lost(counted) => if counted then [path] else []
    case File(_) => [path]
    case Directory(dir) => Files(dir, path)
  }

  /** The unprotected ones among some files. */
  function Unprotected(c: Config, files: seq<Bytes>): seq<Bytes> {
    if files == [] then []
    else (if Protected(files[0], c.root, c.names) then [] else [files[0]]) + Unprotected(c, files[1..])
  }

  lemma {:induction false} UnprotectedJoins(c: Config, a: seq<Bytes>, b: seq<Bytes>)
    ensures Unprotected(c, a + b) == Unprotected(c, a) + Unprotected(c, b)
  {
    if a == [] {
      assert a + b == b;
    } else {
      UnprotectedJoins(c, a[1..], b);
      assert (a + b)[1..] == a[1..] + b;
      Associative(if Protected(a[0], c.root, c.names) then [] else [a[0]], Unprotected(c, a[1..]), Unprotected(c, b));
    }
  }

  /** A protected directory holds no unprotected file. */
  lemma {:induction false} NothingLeft(c: Config, d: Dir, path: Bytes)
    requires Contains(path, c.root) && Protected(path, c.root, c.names)
    ensures Unprotected(c, Files(d, path)) == []
    decreases d, 0
  {
    NothingLeftIn(c, d.items, path);
  }

  lemma {:induction false} NothingLeftIn(c: Config, items: seq<Item>, path: Bytes)
    requires Contains(path, c.root) && Protected(path, c.root, c.names)
    ensures Unprotected(c, FilesOf(items, path)) == []
    decreases items, 1
  {
    if items != [] {
      var child := Child(path, items[0].name);
      ChildProtected(c, path, items[0].name);
      NothingLeftAt(c, items[0].node, child);
      NothingLeftIn(c, items[1..], path);
      UnprotectedJoins(c, if Dot(items[0].name) then [] else FilesAt(items[0].node, child), FilesOf(items[1..], path));
    }
  }

  lemma {:induction false} NothingLeftAt(c: Config, node: Node, path: Bytes)
    requires Contains(path, c.root) && Protected(path, c.root, c.names)
    ensures Unprotected(c, FilesAt(node, path)) == []
    decreases node, 1
  {
    if node.Directory? {
      NothingLeft(c, node.dir, path);
    }
  }

  /** Errors are only ever added. */
  lemma {:induction false} DirErrors(c: Config, d: Dir, path: Bytes, w: Walk)
    ensures WalkDir(c, d, path, w).errors >= w.errors
    decreases d, 0
  {
    if d.open == Opens {
      ItemsErrors(c, d, d.items, path, Enter(path, w));
    }
  }

  lemma {:induction false} ItemsErrors(c: Config, d: Dir, items: seq<Item>, path: Bytes, w: Walk)
    ensures WalkItems(c, d, items, path, w).errors >= w.errors
    decreases items, 2
  {
    if !w.aborted && items != [] {
      ItemErrors(c, items[0], path, w);
      ItemsErrors(c, d, items[1..], path, WalkItem(c, items[0], path, w));
    }
  }

  lemma {:induction false} ItemErrors(c: Config, item: Item, path: Bytes, w: Walk)
    ensures WalkItem(c, item, path, w).errors >= w.errors
    decreases item, 2
  {
    if item.node.Directory? {
      var child := Child(path, item.name);
      DirErrors(c, item.node.dir, child, w.(capacity := Capacity(w.capacity, |child|)));
    }
  }

  /** `v` has come to `w` without an error, and kept the given files on the way. */
  ghost predicate Saw(c: Config, v: Walk, w: Walk, files: seq<Bytes>) {
    w.errors == v.errors ==> !w.aborted && Kept(c, w.trace) == Kept(c, v.trace) + Unprotected(c, files)
  }

  /** Opening and closing a directory keeps no file. */
  lemma BracketsKeep(c: Config, d: Dir, path: Bytes, w: Walk, inner: Walk)
    ensures Kept(c, Enter(path, w).trace) == Kept(c, w.trace)
    ensures Kept(c, Leave(d, path, inner).trace) == Kept(c, inner.trace)
  {
    KeptOne(c, w.trace, Opened(path));
    KeptOne(c, inner.trace, Closed(path));
  }

  /** What was seen inside an opened directory was seen by the walk through it. */
  lemma SawInside(c: Config, d: Dir, path: Bytes, w: Walk, inner: Walk, files: seq<Bytes>)
    requires Saw(c, Enter(path, w), inner, files) && inner.errors >= w.errors
    ensures Saw(c, w, Leave(d, path, inner), files)
  {
    BracketsKeep(c, d, path, w, inner);
  }

  lemma {:induction false} DirSees(c: Config, d: Dir, path: Bytes, w: Walk)
    requires c.prune && Contains(path, c.root) && !w.aborted
    ensures Saw(c, w, WalkDir(c, d, path, w), Files(d, path))
    decreases d, 0
  {
    match d.open
    case Opens =>
      var inner := WalkItems(c, d, d.items, path, Enter(path, w));
      ItemsErrors(c, d, d.items, path, Enter(path, w));
      ItemsSee(c, d, d.items, path, Enter(path, w));
      SawInside(c, d, path, w, inner, FilesOf(d.items, path));
    case _ =>
  }

  lemma {:induction false} ItemsSee(c: Config, d: Dir, items: seq<Item>, path: Bytes, w: Walk)
    requires c.prune && Contains(path, c.root) && !w.aborted
    ensures Saw(c, w, WalkItems(c, d, items, path, w), FilesOf(items, path))
    decreases items, 2
  {
    if items != [] {
      var next, files := WalkItem(c, items[0], path, w), FilesOf(items[1..], path);
      ItemErrors(c, items[0], path, w);
      ItemsErrors(c, d, items[1..], path, next);
      ItemSees(c, items[0], path, w);
      if next.errors == w.errors {
        ItemsSee(c, d, items[1..], path, next);
      }
      UnprotectedJoins(c, if Dot(items[0].name) then [] else FilesAt(items[0].node, Child(path, items[0].name)), files);
    }
  }

  lemma {:induction false} ItemSees(c: Config, item: Item, path: Bytes, w: Walk)
    requires c.prune && Contains(path, c.root) && !w.aborted
    ensures var files := if Dot(item.name) then [] else FilesAt(item.node, Child(path, item.name));
      Saw(c, w, WalkItem(c, item, path, w), files)
    decreases item, 2
  {
    if !Dot(item.name) {
      var child := Child(path, item.name);
      ChildContained(c, path, item.name);
      NodeSees(c, item.node, child, w.(capacity := Capacity(w.capacity, |child|)));
    }
  }

  lemma {:induction false} NodeSees(c: Config, node: Node, path: Bytes, w: Walk)
    requires c.prune && Contains(path, c.root) && !w.aborted
    ensures Saw(c, w, WalkNode(c, node, path, w), FilesAt(node, path))
    decreases node, 1
  {
    match node
    case File(_) => KeptOne(c, w.trace, Visited(path));
    case Directory(dir) =>
      if c.Skips(path) {
        NothingLeft(c, dir, path);
      } else {
        DirSees(c, dir, path, w);
      }
    case _ =>
  }

  /**
   A walk that reports no scan error was not cut short and has visited every unprotected file of the tree,
   in order: this is what lets a cleanup pass without errors settle its task.
   */
  lemma NoErrorsMeansAllSeen(c: Config, d: Dir, room: bool, capacity: nat)
    requires c.prune && c.root != [] && WalkRoot(c, d, room, capacity).errors == 0
    ensures !WalkRoot(c, d, room, capacity).aborted
    ensures Kept(c, WalkRoot(c, d, room, capacity).trace) == Unprotected(c, Files(d, c.root))
  {
    ContainsItself(c.root);
    DirSees(c, d, c.root, Walk([], 0, Capacity(capacity, |c.root|), false));
  }

  lemma {:induction false} KeptExactly(c: Config, trace: seq<Event>, path: Bytes)
    ensures path in Kept(c, trace) <==> Visited(path) in trace && !Protected(path, c.root, c.names)
  {
    if trace != [] {
      var n := |trace| - 1;
      KeptExactly(c, trace[..n], path);
      assert trace == trace[..n] + [trace[n]];
    }
  }

  lemma {:induction false} UnprotectedExactly(c: Config, files: seq<Bytes>, path: Bytes)
    ensures path in Unprotected(c, files) <==> path in files && !Protected(path, c.root, c.names)
  {
    if files != [] {
      UnprotectedExactly(c, files[1..], path);
    }
  }

  /** So the visitor has been given, of the unprotected paths, exactly the files of the tree. */
  lemma VisitedExactly(c: Config, d: Dir, room: bool, capacity: nat, path: Bytes)
    requires c.prune && c.root != [] && WalkRoot(c, d, room, capacity).errors == 0
    requires !Protected(path, c.root, c.names)
    ensures Visited(path) in WalkRoot(c, d, room, capacity).trace <==> path in Files(d, c.root)
  {
    NoErrorsMeansAllSeen(c, d, room, capacity);
    UnprotectedExactly(c, Files(d, c.root), path);
    KeptExactly(c, WalkRoot(c, d, room, capacity).trace, path);
  }

  // ---- a walk has errors only if something failed ----

  /** Nothing the walk looks at fails: directories open (or are gone), reads and closes work, entries can be read. */
  predicate Faultless(c: Config, d: Dir, path: Bytes)
    decreases d, 0
  {
    match d.open
    case Opens => !d.readFails && !d.closeFails && FaultlessItems(c, d.items, path)
    case NoMemory => false
    case Refused(counted) => !counted
  }

  predicate FaultlessItems(c: Config, items: seq<Item>, path: Bytes)
    decreases items, 1
  {
    items == [] ||
    ((Dot(items[0].name) || FaultlessAt(c, items[0].node, Child(path, items[0].name))) &&
     FaultlessItems(c, items[1..], path))
  }

  /** What lies in a protected directory does not matter. */
  predicate FaultlessAt(c: Config, node: Node, path: Bytes)
    decreases node, 1
  {
    match node
    case Unknown(counted) => !counted
    case Special => true
    case Lost(counted) => !counted
    case File(errors) => errors == 0
    case Directory(dir) => c.Skips(path) || Faultless(c, dir, path)
  }

  // The length of a path that the walk forms, and whether a larger buffer can be had for it.
  datatype Need = Need(size: nat, room: bool)

  /** The paths that the walk forms, in order. */
  function Needs(c: Config, d: Dir, path: Bytes): seq<Need>
    decreases d, 0
  {
    if d.open == Opens then NeedsOf(c, d.items, path) else []
  }

  function NeedsOf(c: Config, items: seq<Item>, path: Bytes): seq<Need>
    decreases items, 2
  {
    if items == [] then [] else NeedsIn(c, items[0], path) + NeedsOf(c, items[1..], path)
  }

  function NeedsIn(c: Config, item: Item, path: Bytes): seq<Need>
    decreases item, 1
  {
    if Dot(item.name) then []
    else [Need(|Child(path, item.name)|, item.room)] + NeedsAt(c, item.node, Child(path, item.name))
  }

  function NeedsAt(c: Config, node: Node, path: Bytes): seq<Need>
    decreases node, 1
  {
    if node.Directory? && !c.Skips(path) then Needs(c, node.dir, path) else []
  }

  /** The buffer is large enough for each of the paths, or can be enlarged. */
  predicate Fits(capacity: nat, needs: seq<Need>)
    decreases |needs|
  {
    needs == [] || ((needs[0].size < capacity || needs[0].room) && Fits(Grown(capacity, needs[0]), needs[1..]))
  }

  function Grown(capacity: nat, need: Need): nat {
    if need.size < capacity then capacity else 2 * (need.size + 1)
  }

  function GrownAll(capacity: nat, needs: seq<Need>): nat
    decreases |needs|
  {
    if needs == [] then capacity else GrownAll(Grown(capacity, needs[0]), needs[1..])
  }

  lemma {:induction false} FitsBoth(capacity: nat, a: seq<Need>, b: seq<Need>)
    ensures Fits(capacity, a + b) <==> Fits(capacity, a) && Fits(GrownAll(capacity, a), b)
    ensures GrownAll(capacity, a + b) == GrownAll(GrownAll(capacity, a), b)
    decreases |a|
  {
    if a == [] {
      assert a + b == b;
    } else {
      FitsBoth(Grown(capacity, a[0]), a[1..], b);
      assert (a + b)[1..] == a[1..] + b;
    }
  }

  /** From `v` to `w` no error was counted exactly if `faultless` and the paths fitted. */
  ghost predicate Clean(v: Walk, w: Walk, faultless: bool, needs: seq<Need>) {
    && w.errors >= v.errors
    && (w.errors == v.errors <==> faultless && Fits(v.capacity, needs))
    && (w.errors == v.errors ==> !w.aborted && w.capacity == GrownAll(v.capacity, needs))
  }

  lemma {:induction false} DirClean(c: Config, d: Dir, path: Bytes, w: Walk)
    requires !w.aborted
    ensures Clean(w, WalkDir(c, d, path, w), Faultless(c, d, path), Needs(c, d, path))
    decreases d, 0
  {
    match d.open
    case Opens => ItemsClean(c, d, d.items, path, Enter(path, w));
    case _ =>
  }

  lemma {:induction false} ItemsClean(c: Config, d: Dir, items: seq<Item>, path: Bytes, w: Walk)
    requires !w.aborted
    ensures Clean(w, WalkItems(c, d, items, path, w),
                  !d.readFails && FaultlessItems(c, items, path), NeedsOf(c, items, path))
    decreases items, 2
  {
    if items != [] {
      var next := WalkItem(c, items[0], path, w);
      ItemClean(c, items[0], path, w);
      FitsBoth(w.capacity, NeedsIn(c, items[0], path), NeedsOf(c, items[1..], path));
      if next.aborted {
        assert WalkItems(c, d, items, path, w) == next;
      } else {
        ItemsClean(c, d, items[1..], path, next);
      }
    }
  }

  lemma {:induction false} ItemClean(c: Config, item: Item, path: Bytes, w: Walk)
    requires !w.aborted
    ensures Clean(w, WalkItem(c, item, path, w),
                  Dot(item.name) || FaultlessAt(c, item.node, Child(path, item.name)), NeedsIn(c, item, path))
    decreases item, 1
  {
    if !Dot(item.name) {
      var child := Child(path, item.name);
      NodeClean(c, item.node, child, w.(capacity := Capacity(w.capacity, |child|)));
    }
  }

  lemma {:induction false} NodeClean(c: Config, node: Node, path: Bytes, w: Walk)
    requires !w.aborted
    ensures Clean(w, WalkNode(c, node, path, w), FaultlessAt(c, node, path), NeedsAt(c, node, path))
    decreases node, 1
  {
    match node
    case Directory(dir) =>
      if !c.Skips(path) {
        DirClean(c, dir, path, w);
      }
    case _ =>
  }

  /** The walk is given enough memory, and meets no failure outside the directories it skips. */
  predicate Succeeds(c: Config, d: Dir, room: bool, capacity: nat) {
    && (|c.root| < capacity || room)
    && Faultless(c, d, c.root) && Fits(Grown(capacity, Need(|c.root|, room)), Needs(c, d, c.root))
  }

  /** The converse of `NoErrorsMeansAllSeen`: a walk counts no error exactly if nothing failed. */
  lemma NoErrorsExactly(c: Config, d: Dir, room: bool, capacity: nat)
    ensures WalkRoot(c, d, room, capacity).errors == 0 <==> Succeeds(c, d, room, capacity)
    ensures WalkRoot(c, d, room, capacity).errors == 0 ==> !WalkRoot(c, d, room, capacity).aborted
  {
    if |c.root| < capacity || room {
      DirClean(c, d, c.root, Walk([], 0, Capacity(capacity, |c.root|), false));
    }
  }

  /** A directory's entries for itself and its parent are passed over; every other name makes a path. */
  lemma EntriesPassed(c: Config, item: Item, path: Bytes, w: Walk)
    ensures item.name in {['.'], ['.', '.']} ==> WalkItem(c, item, path, w) == w
    ensures item.name !in {['.'], ['.', '.']} && item.node.File? && item.room ==>
              WalkItem(c, item, path, w).trace == w.trace + [Visited(path + ['/'] + item.name)]
  {
  }

  // ---- what the visitor is given ----

  /** The visited files, in order. */
  function Visits(trace: seq<Event>): seq<Bytes> {
    if trace == [] then []
    else
      var n := |trace| - 1;
      Visits(trace[..n]) + (if trace[n].Visited? then [trace[n].path] else [])
  }

  lemma {:induction false} VisitsExactly(trace: seq<Event>, path: Bytes)
    ensures path in Visits(trace) <==> Visited(path) in trace
  {
    if trace != [] {
      var n := |trace| - 1;
      VisitsExactly(trace[..n], path);
      assert trace == trace[..n] + [trace[n]];
    }
  }

  /** All visited files are below the root. */
  predicate Inside(root: Bytes, trace: seq<Event>) {
    forall e :: e in trace && e.Visited? ==> root + ['/'] <= e.path
  }

  /** The root, or something below it. */
  predicate Within(root: Bytes, path: Bytes) {
    path == root || root + ['/'] <= path
  }

  lemma ChildWithin(root: Bytes, path: Bytes, name: Bytes)
    requires Within(root, path)
    ensures root + ['/'] <= Child(path, name)
  {
    assert path + ['/'] <= Child(path, name);
  }

  lemma {:induction false} DirInside(c: Config, d: Dir, path: Bytes, w: Walk)
    requires Within(c.root, path) && Inside(c.root, w.trace)
    ensures Inside(c.root, WalkDir(c, d, path, w).trace)
    decreases d, 0
  {
    if d.open == Opens {
      ItemsInside(c, d, d.items, path, Enter(path, w));
    }
  }

  lemma {:induction false} ItemsInside(c: Config, d: Dir, items: seq<Item>, path: Bytes, w: Walk)
    requires Within(c.root, path) && Inside(c.root, w.trace)
    ensures Inside(c.root, WalkItems(c, d, items, path, w).trace)
    decreases items, 1
  {
    if !w.aborted && items != [] {
      ItemInside(c, items[0], path, w);
      ItemsInside(c, d, items[1..], path, WalkItem(c, items[0], path, w));
    }
  }

  lemma {:induction false} ItemInside(c: Config, item: Item, path: Bytes, w: Walk)
    requires Within(c.root, path) && Inside(c.root, w.trace)
    ensures Inside(c.root, WalkItem(c, item, path, w).trace)
    decreases item, 2
  {
    var child := Child(path, item.name);
    ChildWithin(c.root, path, item.name);
    match item.node
    case Directory(dir) => DirInside(c, dir, child, w.(capacity := Capacity(w.capacity, |child|)));
    case _ =>
  }

  lemma VisitsInside(c: Config, d: Dir, room: bool, capacity: nat, path: Bytes)
    requires path in Visits(WalkRoot(c, d, room, capacity).trace)
    ensures c.root + ['/'] <= path
  {
    VisitsExactly(WalkRoot(c, d, room, capacity).trace, path);
    DirInside(c, d, c.root, Walk([], 0, Capacity(capacity, |c.root|), false));
  }
}
