/**
 The resumable cursor of ngx_cache_purge_walk.c: a stack of open directories over one path buffer that is
 shared by all of them and reallocated as the walk descends. Every slice continues the traversal of
 `DirectoryWalk` where the last one stopped, whatever the entry limit and the clock do.
 */
module WalkCursor {
  import opened Bytes
  import opened Paths
  import opened DirectoryWalk

  // An open directory: what is left to read, and the length of its path in the shared buffer.
  datatype Frame = Frame(dir: Dir, next: nat, len: nat)

  datatype Status = Again | Done | ScanErrors | Aborted | NotOpened

  /** What the walk reports at its end; `began` says that there was a root to walk. */
  function StatusOf(w: Walk, began: bool): Status {
    if w.aborted then Aborted
    else if !began then NotOpened
    else if w.errors != 0 then ScanErrors
    else Done
  }

  // ---- what is left of a walk ----

  /** Finish the open directories, innermost first. */
  function Unwind(c: Config, stack: seq<Frame>, names: seq<Bytes>, w: Walk): Walk
    requires |names| == |stack| && forall k :: 0 <= k < |stack| ==> stack[k].next <= |stack[k].dir.items|
  {
    if stack == [] then w
    else
      var n := |stack| - 1;
      var f := stack[n];
      Unwind(c, stack[..n], names[..n], Leave(f.dir, names[n], WalkItems(c, f.dir, f.dir.items[f.next..], names[n], w)))
  }

  /** The turns of the loop a directory takes: one for each entry and one for its end. */
  function WorkDir(d: Dir): nat
    decreases d, 0
  {
    1 + WorkItems(d.items)
  }

  function WorkItems(items: seq<Item>): nat
    decreases items, 0
  {
    if items == [] then 0
    else 1 + WorkNode(items[0].node) + WorkItems(items[1..])
  }

  function WorkNode(node: Node): nat
    decreases node, 0
  {
    if node.Directory? then WorkDir(node.dir) else 0
  }

  function Work(stack: seq<Frame>): nat
    requires forall k :: 0 <= k < |stack| ==> stack[k].next <= |stack[k].dir.items|
  {
    if stack == [] then 0
    else
      var f := stack[|stack| - 1];
      Work(stack[..|stack| - 1]) + 1 + WorkItems(f.dir.items[f.next..])
  }

  ghost predicate Nested(trace: seq<Event>, open: seq<Bytes>) {
    Replay(trace) == Some(open)
  }

  class Cursor {
    const config: Config
    const tree: Dir
    const rootRoom: bool  // a buffer for the root's name can be allocated, if one is needed
    var stack: seq<Frame>
    var data: array<Byte>  // the path buffer; its length is `allocated` in the source
    var len: nat
    var started: bool
    var errors: nat
    ghost var names: seq<Bytes>  // the paths of the open directories
    ghost var trace: seq<Event>
    var aborted: bool  // the walk has failed: where the source jumps to its cleanup

    /** The directories that the trace has opened and not closed are those on the stack. */
    ghost predicate Nests()
      reads this`trace, this`names
    {
      forall t {:trigger Nested(t, names)} :: t == trace ==> Nested(t, names)
    }

    ghost predicate Framed()
      reads this
    {
      && |names| == |stack|
      && (forall k :: 0 <= k < |stack| ==> stack[k].next <= |stack[k].dir.items| && |names[k]| == stack[k].len)
      && (forall k :: 0 < k < |names| ==> Below(names[k], names[k - 1]))
      && (!started ==> stack == [] && !aborted && trace == [])
      && Nests()
    }

    /** The buffer holds the path of the innermost directory, and with it those of all the others. */
    ghost predicate Valid()
      reads this, data
    {
      && Framed()
      && (stack != [] ==> |names[|names| - 1]| < data.Length && data[..|names[|names| - 1]|] == names[|names| - 1])
    }

    ghost function State(): Walk
      reads this
    {
      Walk(trace, errors, data.Length, aborted)
    }

    /** The outcome of the whole walk, as far as the tree decides it. */
    ghost function Outcome(): Walk
      requires Framed()
      reads this
    {
      if started then Unwind(config, stack, names, State()) else WalkRoot(config, tree, rootRoom, data.Length)
    }

    constructor (config: Config, tree: Dir, rootRoom: bool)
      ensures Valid() && !started && this.config == config && this.tree == tree && this.rootRoom == rootRoom
      ensures data.Length == 0 && fresh(data)
    {
      this.config, this.tree, this.rootRoom := config, tree, rootRoom;
      stack, data, len, started, errors := [], new Byte[0], 0, false, 0;
      names, trace, aborted := [], [], false;
    }

    // ---- the shared buffer ----

    ghost function Base(): (b: Bytes)
      requires Framed()
      reads this
    {
      if stack == [] then [] else names[|names| - 1] + ['/']
    }

    /** walk_name: append a name to the innermost directory's path, in a larger buffer if needed. */
    method Name(name: Bytes, room: bool) returns (ok: bool)
      requires Valid()
      modifies this`data, this`len, data
      ensures Valid() && (data == old(data) || fresh(data))
      ensures var size := |Base()| + |name|;
        && ok == (old(data.Length) > size || room)
        && (ok ==> data.Length == Capacity(old(data.Length), size) && len == size && data[..len] == Base() + name)
        && (!ok ==> data.Length == old(data.Length))
    {
      var base := if stack == [] then 0 else stack[|stack| - 1].len;
      var size := base + (if stack == [] then 0 else 1) + |name|;
      ok := Reserve(size, base, room);
      if ok {
        Append(base, name);
      }
    }

    method Append(base: nat, name: Bytes)
      requires Valid() && |Base()| + |name| < data.Length && base == if stack == [] then 0 else stack[|stack| - 1].len
      modifies this`len, data
      ensures Valid() && len == |Base()| + |name| && data[..len] == Base() + name
    {
      Write(base, stack != [], name, Base());
      len := base + (if stack == [] then 0 else 1) + |name|;
      assert stack != [] ==> data[..base] == names[|names| - 1];
    }

    /** Room for a path of this length and its terminator; what is in front of it stays. */
    method Reserve(size: nat, base: nat, room: bool) returns (ok: bool)
      requires base <= size && base <= data.Length
      modifies this`data
      ensures (data == old(data) || fresh(data)) && base <= data.Length && data[..base] == old(data[..base])
      ensures ok == (old(data.Length) > size || room)
      ensures data.Length == if ok then Capacity(old(data.Length), size) else old(data.Length)
    {
      ok := true;
      if data.Length <= size {
        if !room {
          return false;
        }
        Grow(2 * (size + 1), base);
      }
    }

    method Grow(capacity: nat, base: nat)
      requires base <= data.Length < capacity
      modifies this`data
      ensures fresh(data) && data.Length == capacity && data[..base] == old(data[..base])
    {
      var p, was := new Byte[capacity](_ => '0'), data;
      var i := 0;
      while i < base
        invariant i <= base && p[..i] == was[..i] && was[..base] == old(data[..base])
      {
        p[i] := was[i];
        i := i + 1;
      }
      data := p;
    }

    method Write(base: nat, separated: bool, name: Bytes, ghost front: Bytes)
      requires base + Flag(separated) + |name| < data.Length
      requires front == if separated then data[..base] + ['/'] else data[..base]
      modifies data
      ensures data[..base] == old(data[..base])
      ensures data[..base + Flag(separated) + |name|] == front + name
    {
      var at := base;
      if separated {
        data[at] := '/';
        at := at + 1;
      }
      forall i | 0 <= i < |name| {
        data[at + i] := name[i];
      }
      assert data[..at] == front;
      assert data[at..at + |name|] == name;
      assert data[..at + |name|] == data[..at] + data[at..at + |name|];
    }

    // ---- opening and closing ----

    method Push(d: Dir)
      requires Valid() && started && len < data.Length && (stack == [] || Below(data[..len], names[|names| - 1]))
      modifies this`stack, this`names, this`trace
      ensures Valid() && State() == Enter(data[..len], old(State()))
      ensures stack == old(stack) + [Frame(d, 0, len)] && names == old(names) + [data[..len]]
    {
      ghost var path, open, more := data[..len], names, trace + [Opened(data[..len])];
      assert Nested(trace, open);
      ReplayOne(trace, Opened(path));
      assert Nested(more, open + [path]);
      stack, names, trace := stack + [Frame(d, 0, len)], open + [path], more;
    }

    /** The walk's outcome is `goal` and takes at most `work` more turns. */
    ghost predicate Leads(w: Walk, work: nat, goal: Walk, limit: nat)
      requires Framed()
      reads this
    {
      Unwind(config, stack, names, w) == goal && Work(stack) + work <= limit
    }

    /** walk_open for the path in the buffer. */
    method Open(d: Dir, ghost goal: Walk, ghost limit: nat)
      requires Valid() && started && !aborted && len < data.Length
               && (stack == [] || Below(data[..len], names[|names| - 1]))
      requires Leads(WalkDir(config, d, data[..len], State()), WorkDir(d), goal, limit)
      modifies this`stack, this`errors, this`names, this`trace, this`aborted
      ensures Valid() && Leads(State(), 0, goal, limit)
      ensures aborted <==> d.open == NoMemory
      ensures if d.open == Opens then stack != [] else stack == old(stack)
    {
      match d.open {
        case NoMemory => Fail(goal, limit);
        case Refused(counted) => CountError(counted, goal, limit);
        case Opens =>
          UnwindTop(config, stack, names, Frame(d, 0, len), data[..len], Enter(data[..len], State()));
          assert d.items[0..] == d.items;
          Push(d);
      }
    }

    /** The path shrinks back to the innermost directory. */
    method Shrink()
      requires Valid() && stack != []
      modifies this`len, data
      ensures Valid() && len <= data.Length && data[..len] == names[|names| - 1]
    {
      len := stack[|stack| - 1].len;
      data[len] := '\0';
    }

    /** walk_close. */
    method Close()
      requires Valid() && stack != []
      modifies this`stack, this`len, this`errors, this`names, this`trace, data
      ensures Valid() && stack == old(stack)[..|old(stack)| - 1] && names == old(names)[..|old(names)| - 1]
      ensures State() == Leave(old(stack)[|old(stack)| - 1].dir, old(names)[|old(names)| - 1], old(State()))
    {
      Shrink();
      Pop();
    }

    method Pop()
      requires Valid() && stack != [] && len <= data.Length && data[..len] == names[|names| - 1]
      modifies this`stack, this`errors, this`names, this`trace
      ensures Valid() && stack == old(stack)[..|old(stack)| - 1] && names == old(names)[..|old(names)| - 1]
      ensures State() == Leave(old(stack)[|old(stack)| - 1].dir, old(names)[|old(names)| - 1], old(State()))
    {
      var n := |stack| - 1;
      ghost var open, more := names, trace + [Closed(data[..len])];
      assert Nested(trace, open);
      ReplayOne(trace, Closed(data[..len]));
      assert Nested(more, open[..n]);
      errors := errors + Flag(stack[n].dir.closeFails);
      stack, names, trace := stack[..n], open[..n], more;
    }

    // ---- one turn of the loop ----

    /** The visitor is called with the path in the buffer, and may run into errors. */
    method Visit(found: nat)
      requires Valid() && stack != [] && started && len < data.Length && Below(data[..len], names[|names| - 1])
      modifies this`errors, this`trace
      ensures Valid() && State() ==
              old(State()).(trace := old(trace) + [Visited(data[..len])], errors := old(errors) + found)
    {
      assert Nested(trace, names);
      ReplayOne(trace, Visited(data[..len]));
      trace, errors := trace + [Visited(data[..len])], errors + found;
    }

    method Descend(dir: Dir, ghost goal: Walk, ghost limit: nat)
      requires Valid() && started && !aborted && stack != [] && len < data.Length
               && Below(data[..len], names[|names| - 1])
      requires Leads(WalkNode(config, Directory(dir), data[..len], State()), WorkDir(dir), goal, limit)
      modifies this`stack, this`errors, this`names, this`trace, this`aborted
      ensures Valid() && Leads(State(), 0, goal, limit)
    {
      var skip := Skips(data[..len]);
      if !skip {
        Open(dir, goal, limit);
      }
    }

    /** An entry whose path is in the buffer. */
    method Treat(node: Node, ghost goal: Walk, ghost limit: nat)
      requires Valid() && started && !aborted && stack != [] && len < data.Length
               && Below(data[..len], names[|names| - 1])
      requires Leads(WalkNode(config, node, data[..len], State()), WorkNode(node), goal, limit)
      modifies this`stack, this`errors, this`names, this`trace, this`aborted
      ensures Valid() && Leads(State(), 0, goal, limit)
    {
      match node {
        case Unknown(counted) => CountError(counted, goal, limit);
        case Special =>
        case Lost(counted) => CountError(counted, goal, limit);
        case File(found) =>
          Visit(found);
        case Directory(dir) => Descend(dir, goal, limit);
      }
    }

    method Skips(path: Bytes) returns (skip: bool)
      ensures skip <==> config.Skips(path)
    {
      skip := config.prune;
      if skip {
        skip := IsProtectedPath(path, config.root, Some(config.names), None);
      }
    }

    /** The path of an entry in the buffer. */
    method Locate(item: Item, ghost goal: Walk, ghost limit: nat) returns (ok: bool)
      requires Valid() && started && !aborted && stack != [] && !Dot(item.name)
      requires Leads(WalkItem(config, item, names[|names| - 1], State()), WorkNode(item.node), goal, limit)
      modifies this`data, this`len, data
      ensures Valid() && (data == old(data) || fresh(data))
      ensures ok ==> len < data.Length && Below(data[..len], names[|names| - 1])
      ensures ok ==> Leads(WalkNode(config, item.node, data[..len], State()), WorkNode(item.node), goal, limit)
      ensures !ok ==> Leads(State().(errors := errors + 1, aborted := true), 0, goal, limit)
    {
      ghost var top, w := names[|names| - 1], State();
      ghost var size := |top| + 1 + |item.name|;
      ok := Name(item.name, item.room);
      if ok {
        assert data[..len] == Child(top, item.name) && len == size;
        assert State() == w.(capacity := Capacity(w.capacity, size));
      } else {
        assert State() == w;
      }
    }

    /** An entry that was read. */
    method Examine(item: Item, ghost goal: Walk, ghost limit: nat)
      requires Valid() && started && !aborted && stack != []
      requires Leads(WalkItem(config, item, names[|names| - 1], State()), WorkNode(item.node), goal, limit)
      modifies this`stack, this`data, this`len, this`errors, this`names, this`trace, this`aborted, data
      ensures Valid() && (data == old(data) || fresh(data)) && Leads(State(), 0, goal, limit)
    {
      if Dot(item.name) {
        return;
      }
      var ok := Locate(item, goal, limit);
      if ok {
        Treat(item.node, goal, limit);
      } else {
        Fail(goal, limit);
      }
    }

    method Fail(ghost goal: Walk, ghost limit: nat)
      requires Valid() && started && Leads(State().(errors := errors + 1, aborted := true), 0, goal, limit)
      modifies this`errors, this`aborted
      ensures Valid() && Leads(State(), 0, goal, limit) && aborted
    {
      errors, aborted := errors + 1, true;
    }

    method CountError(counted: bool, ghost goal: Walk, ghost limit: nat)
      requires Valid() && Leads(State().(errors := errors + Flag(counted)), 0, goal, limit)
      modifies this`errors
      ensures Valid() && Leads(State(), 0, goal, limit)
    {
      errors := errors + Flag(counted);
    }

    /** The innermost directory is closed, with or without a read error to count before. */
    method CloseTop(failed: bool, ghost goal: Walk, ghost limit: nat)
      requires Valid() && stack != []
      requires var n := |stack| - 1; var w := State().(errors := errors + Flag(failed));
        Unwind(config, stack[..n], names[..n], Leave(stack[n].dir, names[n], w)) == goal && Work(stack[..n]) <= limit
      modifies this`stack, this`len, this`errors, this`names, this`trace, data
      ensures Valid() && Leads(State(), 0, goal, limit) && |stack| == |old(stack)| - 1
    {
      errors := errors + Flag(failed);
      Close();
    }

    /** The innermost directory has no more entries. */
    method EndDirectory(ghost goal: Walk, ghost limit: nat)
      requires Valid() && started && !aborted && stack != [] && Leads(State(), 0, goal, limit)
      requires stack[|stack| - 1].next == |stack[|stack| - 1].dir.items|
      modifies this`stack, this`len, this`errors, this`names, this`trace, data
      ensures limit > 0 && Valid() && Leads(State(), 0, goal, limit - 1)
    {
      EndUnwinds(config, stack, names, State());
      CloseTop(stack[|stack| - 1].dir.readFails, goal, limit - 1);
    }

    /** The next entry of the innermost directory. */
    method ReadEntry(ghost goal: Walk, ghost limit: nat) returns (item: Item)
      requires Valid() && started && !aborted && stack != [] && Leads(State(), 0, goal, limit)
      requires stack[|stack| - 1].next < |stack[|stack| - 1].dir.items|
      modifies this`stack
      ensures Valid() && stack != []
      ensures limit > 0
      ensures Leads(WalkItem(config, item, names[|names| - 1], State()), WorkNode(item.node), goal, limit - 1)
    {
      var n := |stack| - 1;
      var f := stack[n];
      item := f.dir.items[f.next];
      ReadUnwinds(config, stack, names, State());
      PassEntry();
    }

    method PassEntry()
      requires Valid() && stack != [] && stack[|stack| - 1].next < |stack[|stack| - 1].dir.items|
      modifies this`stack
      ensures Valid()
      ensures var n := |old(stack)| - 1; stack == old(stack)[n := old(stack)[n].(next := old(stack)[n].next + 1)]
    {
      var n := |stack| - 1;
      stack := stack[n := stack[n].(next := stack[n].next + 1)];
    }

    /** One turn: the next entry, or the end of the innermost directory. */
    method Turn(ghost goal: Walk, ghost limit: nat)
      requires Valid() && started && !aborted && stack != [] && Leads(State(), 0, goal, limit)
      modifies this`stack, this`data, this`len, this`errors, this`names, this`trace, this`aborted, data
      ensures limit > 0 && Valid() && (data == old(data) || fresh(data)) && Leads(State(), 0, goal, limit - 1)
    {
      var top := stack[|stack| - 1];
      if top.next == |top.dir.items| {
        EndDirectory(goal, limit);
      } else {
        var item := ReadEntry(goal, limit);
        Examine(item, goal, limit - 1);
      }
    }

    /** After a failure the open directories are closed, innermost first. */
    method CloseAll(ghost goal: Walk, ghost limit: nat)
      requires Valid() && started && aborted && Leads(State(), 0, goal, limit)
      modifies this`stack, this`len, this`errors, this`names, this`trace, data
      ensures Valid() && stack == [] && State() == goal
    {
      while stack != []
        invariant Valid() && started && aborted && data == old(data) && Leads(State(), 0, goal, limit)
        decreases |stack|
      {
        FailedUnwinds(config, stack, names, State());
        CloseTop(false, goal, limit);
      }
    }

    // ---- slices ----

    /** The root's name and the root. */
    method Begin(ghost goal: Walk, ghost limit: nat)
      requires Valid() && !started && goal == WalkRoot(config, tree, rootRoom, data.Length) && limit >= WorkDir(tree)
      modifies this, data
      ensures Valid() && started && (data == old(data) || fresh(data)) && Leads(State(), 0, goal, limit)
      ensures aborted ==> stack == []
      ensures stack == [] <==> aborted || tree.open != Opens
    {
      started, errors, trace := true, 0, [];
      var ok := Name(config.root, rootRoom);
      if ok {
        assert data[..len] == config.root;
        Open(tree, goal, limit);
      } else {
        errors, aborted := 1, true;
      }
    }

    /** The loop of walk_step: turns until the walk has ended or failed, or the limit or the clock stops it. */
    method Turns(limit: nat, clock: nat -> bool, ghost goal: Walk, ghost work: nat)
      returns (stop: bool, ghost turns: nat)
      requires Valid() && started && (aborted ==> stack == []) && Leads(State(), 0, goal, work)
      modifies this`stack, this`data, this`len, this`errors, this`names, this`trace, this`aborted, data
      ensures Valid() && turns <= work && Leads(State(), 0, goal, work - turns)
      ensures data == old(data) || fresh(data)
      ensures if stop then !aborted && turns > 0 && limit > 0 else aborted || stack == []
      ensures limit > 0 ==> turns <= limit
    {
      var n := 0;
      turns, stop := 0, false;
      while stack != [] && !aborted && !stop
        invariant Valid() && started && (data == old(data) || fresh(data))
        invariant turns <= work && Leads(State(), 0, goal, work - turns) && turns == n
        invariant stop ==> turns > 0 && limit > 0
        invariant limit > 0 ==> turns <= limit
        invariant aborted ==> !stop
        decreases work - turns, !stop
      {
        if limit != 0 && n != 0 && (n >= limit || clock(n)) {
          stop := true;
        } else {
          Turn(goal, work - turns);
          n, turns := n + 1, turns + 1;
        }
      }
    }

    /**
     walk_step: at most `limit` turns (0 stands for no limit), fewer when the clock says so. The first turn
     of a slice is always made, and a slice never changes what the walk comes to.
     */
    method Step(limit: nat, clock: nat -> bool, ghost goal: Walk, ghost work: nat)
      returns (status: Status, ghost turns: nat)
      requires Valid() && (aborted ==> stack == [])
      requires if started then Leads(State(), 0, goal, work)
               else goal == WalkRoot(config, tree, rootRoom, data.Length) && work >= WorkDir(tree)
      modifies this, data
      ensures Valid() && started && turns <= work && Leads(State(), 0, goal, work - turns)
      ensures (data == old(data) || fresh(data)) && (aborted ==> stack == [])
      ensures status == Again ==> turns > 0 && limit > 0
      ensures status != Again ==> stack == [] && State() == goal
      ensures status != Again ==> status == StatusOf(goal, old(started) || tree.open == Opens)
      ensures status == Again ==> old(started) || tree.open == Opens
      ensures limit > 0 ==> turns <= limit
    {
      turns := 0;
      if !started {
        Begin(goal, work);
        if stack == [] {
          return if aborted then Aborted else NotOpened, 0;
        }
      }
      var stop;
      stop, turns := Turns(limit, clock, goal, work);
      if aborted {
        CloseAll(goal, work - turns);
        return Aborted, turns;
      }
      status := if stop then Again else if errors != 0 then ScanErrors else Done;
    }

    /** The timer handler calls the walk again and again; `slices` are the limits and clocks it meets. */
    method Drive(slices: seq<(nat, nat -> bool)>) returns (status: Status)
      requires Valid() && !started
      modifies this, data
      ensures Valid() && (status == Again || stack == [])
      ensures status != Again ==> State() == WalkRoot(config, tree, rootRoom, old(data.Length))
      ensures |slices| > WorkDir(tree) ==> status != Again
      // A walk that has ended reports success exactly if the root could be opened and nothing failed.
      ensures status != Again ==>
                (status == Done <==> tree.open == Opens && Succeeds(config, tree, rootRoom, old(data.Length)))
    {
      NoErrorsExactly(config, tree, rootRoom, data.Length);
      ghost var goal, left: nat := WalkRoot(config, tree, rootRoom, data.Length), WorkDir(tree);
      var i := 0;
      status := Again;
      while i < |slices| && status == Again
        invariant i <= |slices| && Valid() && (data == old(data) || fresh(data)) && (aborted ==> stack == [])
        invariant if started then Leads(State(), 0, goal, left)
                  else goal == WalkRoot(config, tree, rootRoom, data.Length) && left >= WorkDir(tree)
        invariant status == Again ==> i + left <= WorkDir(tree)
        invariant status != Again ==> stack == [] && State() == goal && status == StatusOf(goal, tree.open == Opens)
        invariant started && status == Again ==> tree.open == Opens
      {
        ghost var turns;
        status, turns := Step(slices[i].0, slices[i].1, goal, left);
        left := left - turns;
        i := i + 1;
      }
    }

    /** The fast exit of a worker: an unfinished walk is dropped, but every directory it opened is closed. */
    method Abandon()
      requires Valid()
      modifies this`stack, this`len, this`errors, this`names, this`trace, data
      ensures Valid() && stack == [] && Replay(trace) == Some([]) && old(trace) <= trace
    {
      while stack != []
        invariant Valid() && data == old(data) && old(trace) <= trace
        decreases |stack|
      {
        Close();
      }
      assert Nested(trace, names);
    }
  }

  lemma UnwindTop(c: Config, stack: seq<Frame>, names: seq<Bytes>, f: Frame, path: Bytes, w: Walk)
    requires |names| == |stack| && f.next <= |f.dir.items|
    requires forall k :: 0 <= k < |stack| ==> stack[k].next <= |stack[k].dir.items|
    ensures Unwind(c, stack + [f], names + [path], w) ==
            Unwind(c, stack, names, Leave(f.dir, path, WalkItems(c, f.dir, f.dir.items[f.next..], path, w)))
    ensures Work(stack + [f]) == Work(stack) + 1 + WorkItems(f.dir.items[f.next..])
  {
    assert (stack + [f])[..|stack|] == stack && (names + [path])[..|stack|] == names;
  }

  lemma EndUnwinds(c: Config, stack: seq<Frame>, names: seq<Bytes>, w: Walk)
    requires |names| == |stack| && stack != []
             && (forall k :: 0 <= k < |stack| ==> stack[k].next <= |stack[k].dir.items|)
    requires !w.aborted && stack[|stack| - 1].next == |stack[|stack| - 1].dir.items|
    ensures var n := |stack| - 1; var d := stack[n].dir;
      && Unwind(c, stack, names, w) ==
         Unwind(c, stack[..n], names[..n], Leave(d, names[n], w.(errors := w.errors + Flag(d.readFails))))
      && Work(stack) == Work(stack[..n]) + 1
  {
    var f := stack[|stack| - 1];
    assert f.dir.items[f.next..] == [];
  }

  lemma ReadUnwinds(c: Config, stack: seq<Frame>, names: seq<Bytes>, w: Walk)
    requires |names| == |stack| && stack != []
             && (forall k :: 0 <= k < |stack| ==> stack[k].next <= |stack[k].dir.items|)
    requires !w.aborted && stack[|stack| - 1].next < |stack[|stack| - 1].dir.items|
    ensures var n := |stack| - 1; var f := stack[n]; var item, g := f.dir.items[f.next], f.(next := f.next + 1);
      && Unwind(c, stack, names, w) == Unwind(c, stack[n := g], names, WalkItem(c, item, names[n], w))
      && Work(stack) == Work(stack[n := g]) + 1 + WorkNode(item.node)
  {
    var n := |stack| - 1;
    var f := stack[n];
    var g := f.(next := f.next + 1);
    assert f.dir.items[f.next..][1..] == f.dir.items[g.next..];
    assert stack == stack[..n] + [f] && stack[n := g] == stack[..n] + [g] && names == names[..n] + [names[n]];
    UnwindTop(c, stack[..n], names[..n], f, names[n], w);
    UnwindTop(c, stack[..n], names[..n], g, names[n], WalkItem(c, f.dir.items[f.next], names[n], w));
  }

  lemma FailedUnwinds(c: Config, stack: seq<Frame>, names: seq<Bytes>, w: Walk)
    requires |names| == |stack| && stack != []
             && (forall k :: 0 <= k < |stack| ==> stack[k].next <= |stack[k].dir.items|)
    requires w.aborted
    ensures var n := |stack| - 1;
      && Unwind(c, stack, names, w) == Unwind(c, stack[..n], names[..n], Leave(stack[n].dir, names[n], w))
      && Work(stack[..n]) <= Work(stack)
  {
  }
}
