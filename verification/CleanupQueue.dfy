/**
 The queue of ngx_cache_purge_queue.c as the workers change it in place: task objects whose fields
 are rewritten, two lists, the per-path index and the slot arrays. Each method is one section under
 the zone lock and is proved to do to the whole state exactly what its function in QueueState says.
 */
module CleanupQueue {
  import opened Bytes
  import opened Generation
  import GenerationKey
  import InvalidationLog
  import opened QueueState
  import opened QueueInvariants
  import Paths

  const KEY_MAX: nat := 512  // NGX_CACHE_PURGE_KEY_MAX_LEN

  class Item {
    const path: Bytes
    const key: Bytes        // the tagged key: 'L' + key, or 'G' + namespace
    const purgeAll: bool
    var running: bool
    var rerun: bool
    var owner: nat
    var slot: nat
    var epoch: nat
    var enqueuedAt: nat
    var retryAt: nat
    var retries: nat
    var protection: Protection
    var next: Option<Protection>

    constructor (k: TaskKey, purgeAll: bool, protection: Protection, now: nat)
      ensures View() == NewRecord(k, purgeAll, protection, now)
    {
      this.path, this.key, this.purgeAll := k.path, k.key, purgeAll;
      this.running, this.rerun, this.owner, this.slot, this.epoch := false, false, 0, 0, 0;
      this.enqueuedAt, this.retryAt, this.retries := now, 0, 0;
      this.protection, this.next := protection, None;
    }

    ghost function View(): Record
      reads this
    {
      Record(path, key, purgeAll, running, rerun, owner, slot, epoch, enqueuedAt, retryAt, retries, protection, next)
    }

    /** A duplicate arrives. */
    method Touch(protection: Protection)
      modifies this
      ensures View() == Refreshed(old(View()), protection)
    {
      if running {
        rerun := true;
        next := Some(protection);
      } else {
        this.protection := protection;
      }
      retries, retryAt := 0, 0;
    }

    /** A worker takes the task. */
    method Claim(pid: nat, slot: nat, epoch: nat)
      modifies this
      ensures View() == Claimed(old(View()), pid, slot, epoch)
    {
      retryAt, running, owner, this.slot, this.epoch := 0, true, pid, slot, epoch;
    }

    /** A replay starts a fresh retry window, a retry waits for its delay. */
    method Reschedule(retries: nat, retryAt: nat)
      modifies this
      ensures View() == old(View()).(retries := retries, retryAt := retryAt)
    {
      this.retries, this.retryAt := retries, retryAt;
    }

    /** The part of handing a task back that is the task's own. */
    method Release(now: nat)
      modifies this
      ensures View() == Released(old(View()), now)
    {
      running, owner, rerun := false, 0, false;
      if next.Some? {
        protection := next.value;
        next := None;
      }
      enqueuedAt := now;
    }
  }

  // What a purge request asks for, and how its attempt goes: the process is on its way out, the
  // zone trylock, the namespace trylock, room for the task, and allocations left for the tries.
  datatype Purge = Purge(path: Bytes, key: Bytes, all: bool, expected: Option<Bytes>, protection: Protection)

  datatype Attempt = Attempt(exiting: bool, acquired: bool, published: bool, space: bool, budget: nat, now: nat)

  datatype Reply = Accepted | Full | Refused | Failed | Exiting

  /** The return codes of the nested invalidation pass through unchanged. */
  function Passed(rc: Result): Reply {
    match rc
    case Ok => Accepted
    case Again => Full
    case Declined => Refused
    case Error => Failed
  }

  /** A namespace has one task per path, a literal key one per key; purge-all is the empty key. */
  function Tagged(space: Option<Bytes>, key: Bytes, all: bool): Bytes {
    match space
    case Some(name) => ['G'] + name
    case None => ['L'] + (if all then [] else key)
  }

  /** One task for a namespace and one for each literal key; the two kinds never meet. */
  lemma TasksAreDistinct(space: Option<Bytes>, key: Bytes, all: bool, space': Option<Bytes>, key': Bytes, all': bool)
    ensures Tagged(space, key, all) == Tagged(space', key', all') <==>
            space == space' && (space.Some? || (if all then [] else key) == (if all' then [] else key'))
  {
    forall s: Bytes, t: Bytes, c: Byte, d: Byte | [c] + s == [d] + t
      ensures c == d && s == t
    {
      assert ([c] + s)[0] == c && ([d] + t)[0] == d && ([c] + s)[1..] == s && ([d] + t)[1..] == t;
    }
  }

  predicate TooLong(space: Option<Bytes>, key: Bytes, all: bool) {
    if space.Some? then |key| > LOGICAL_KEY_MAX else !all && |key| > KEY_MAX
  }

  function NameOf(space: GenerationState?): Option<Bytes> {
    if space == null then None else Some(space.name)
  }

  function KeyOf(p: Purge, space: Option<Bytes>): TaskKey {
    TaskKey(p.path[..Paths.Trim(p.path)], Tagged(space, p.key, p.all))
  }

  /** Separators behind the path of a cache do not make it another cache. */
  lemma TrailingSlashesDoNotMatter(p: Purge, space: Option<Bytes>, path: Bytes, k: nat)
    requires path != [] && (|path| == 1 || !Paths.Separator(path[|path| - 1]))
    requires p.path == path + Paths.Slashes(k)
    ensures KeyOf(p, space) == KeyOf(p.(path := path), space) && KeyOf(p, space).path == path
  {
    Paths.TrimSlashes(path, k);
    Paths.TrimSlashes(path, 0);
    assert path + Paths.Slashes(0) == path;
  }

  ghost function Footprint(space: GenerationState?): set<object>
    reads if space == null then {} else {space}
  {
    if space == null then {} else {space} + SetOf(space.live)
  }

  ghost predicate Sound(space: GenerationState?)
    reads Footprint(space), if space == null then {} else set r | r in space.detached
  {
    forall s: GenerationState {:trigger s.Valid()} :: s == space ==> s.Valid()
  }

  /** The nested publication of a purge; without a namespace there is nothing to publish. */
  method Publish(p: Purge, a: Attempt, space: GenerationState?) returns (reply: Reply)
    requires Sound(space)
    modifies Footprint(space)
    ensures Sound(space) && (space == null ==> reply == Accepted)
    ensures space != null ==> reply == old(Passed(space.Answer(p.key, p.expected, a.published)))
    ensures space != null && reply != Accepted ==> space.log == old(space.log)
    ensures space != null && reply == Accepted ==>
              space.log == old(space.log) + [old(space.Outcome(p.key, p.all, p.expected.Some?, a.budget))]
  {
    reply := Accepted;
    if space != null {
      var rc := space.Invalidate(p.key, p.all, p.expected, a.published, a.budget);
      reply := Passed(rc);
    }
  }

  /**
   What taking makes of the queue: the list is rotated past delayed tasks and the first ready one, if any, is
   claimed.
   */
  ghost predicate Taken(was: Queue<Item>, now': Queue<Item>, item: Item?, now: nat, pid: nat, slot: nat) {
    && was.size == |was.pending| && (forall i :: i in was.pending ==> i in was.records)
    && var k := Scan(was, now);
    if k == ScanWindow(was) then item == null && now' == RotatePending(was, k)
    else item == was.pending[k] && TakeHead.requires(RotatePending(was, k), pid, slot)
         && now' == TakeHead(RotatePending(was, k), pid, slot)
  }

  class CleanupQueue {
    var pending: seq<Item>
    var active: seq<Item>
    var size: nat
    var running: nat
    var oldest: nat
    const owners: array<nat>
    const epochs: array<nat>
    var maxSize: nat
    var paths: set<Bytes>
    var index: map<TaskKey, Item>
    var stats: map<Counter, nat>
    ghost var abs: Queue<Item>  // the whole state as a value, with what the indexed tasks hold

    ghost predicate Fields()
      reads this, owners, epochs
    {
      && pending == abs.pending && active == abs.active
      && size == abs.size && running == abs.running && oldest == abs.oldest
      && owners[..] == abs.owners && epochs[..] == abs.epochs
      && maxSize == abs.maxSize && paths == abs.paths && index == abs.index && stats == abs.stats
    }

    ghost predicate Holds()
      reads this`abs, abs.records.Keys
    {
      forall i {:trigger abs.records[i]} :: i in abs.records ==> i.View() == abs.records[i]
    }

    ghost predicate Mirrors()
      reads this, owners, epochs, abs.records.Keys
    {
      owners != epochs && Fields() && Holds()
    }

    ghost predicate Valid()
      reads this, owners, epochs, abs.records.Keys
    {
      Mirrors() && WellFormed(abs)
    }

    constructor (maxSize: nat, paths: set<Bytes>)
      ensures Valid() && fresh(owners) && fresh(epochs)
      ensures abs == Queue([], [], 0, 0, 0, seq(SLOTS, _ => 0), seq(SLOTS, _ => 0), maxSize, paths, map[], map[], map[])
    {
      owners := new nat[SLOTS](_ => 0);
      epochs := new nat[SLOTS](_ => 0);
      pending, active, size, running, oldest := [], [], 0, 0, 0;
      index, stats := map[], map[];
      abs := Queue([], [], 0, 0, 0, seq(SLOTS, _ => 0), seq(SLOTS, _ => 0), maxSize, paths, map[], map[], map[]);
      this.maxSize, this.paths := maxSize, paths;
      new;
      assert owners[..] == seq(SLOTS, _ => 0) && epochs[..] == seq(SLOTS, _ => 0);
    }

    // ---- the two lists ----

    method Append(i: Item, at: nat)
      modifies this`pending, this`size, this`oldest
      ensures pending == old(pending) + [i] && size == old(size) + 1
      ensures oldest == if old(pending) == [] then at else old(oldest)
    {
      if pending == [] {
        oldest := at;
      }
      pending := pending + [i];
      size := size + 1;
    }

    method Unlink(i: Item)
      requires running > 0
      modifies this`active, this`running
      ensures active == Without(old(active), i) && running == old(running) - 1
    {
      active, running := Without(active, i), running - 1;
    }

    /** An active task moves to the pending tail. */
    method Return(i: Item, at: nat)
      requires running > 0
      modifies this`pending, this`active, this`size, this`running, this`oldest
      ensures active == Without(old(active), i) && running == old(running) - 1
      ensures pending == old(pending) + [i] && size == old(size) + 1
      ensures oldest == if old(pending) == [] then at else old(oldest)
    {
      Unlink(i);
      Append(i, at);
    }

    /** The head of the pending list moves to the active tail. */
    method Shift(i: Item)
      requires pending != [] && size > 0
      modifies this`pending, this`active, this`size, this`running, this`oldest
      ensures pending == old(pending)[1..] && active == old(active) + [i]
      ensures size == old(size) - 1 && running == old(running) + 1
      ensures oldest == if pending != [] then pending[0].enqueuedAt else old(oldest)
    {
      pending, active := pending[1..], active + [i];
      size, running := size - 1, running + 1;
      if pending != [] {
        oldest := pending[0].enqueuedAt;
      }
    }

    // ---- enqueue ----

    method Refresh(i: Item, protection: Protection, slot: nat)
      requires Mirrors() && i in abs.records
      modifies this`abs, this`stats, i
      ensures Mirrors() && abs == Dedup(old(abs), i, protection, slot)
    {
      abs := Dedup(abs, i, protection, slot);
      stats := Bump(stats, slot, i.path, Deduplicated, 1);
      i.Touch(protection);
    }

    method Insert(i: Item, k: TaskKey, purgeAll: bool, protection: Protection, now: nat, slot: nat)
      requires Fields()
      modifies this
      ensures Fields() && abs == Admit(old(abs), i, k, purgeAll, protection, now, slot)
    {
      abs := Admit(abs, i, k, purgeAll, protection, now, slot);
      index := index[k := i];
      stats := Bump(Bump(stats, slot, k.path, Enqueued, 1), slot, k.path, EnqueuedFull, Flag(purgeAll));
      Append(i, now);
    }

    method Join(i: Item, p: Purge, slot: nat, published: bool)
      requires Valid() && i in abs.records
      modifies this`abs, this`stats, i
      ensures Valid()
      ensures var q := Dedup(old(abs), i, p.protection, slot);
        abs == if published then QueueState.Published(q, i.path, slot) else q
    {
      DedupKeeps(abs, i, p.protection, slot);
      Refresh(i, p.protection, slot);
      if published {
        StatsKeep(abs, QueueState.Published(abs, i.path, slot).stats);
        AddStat(i.path, Invalidated, 1, slot);
      }
    }

    method Create(k: TaskKey, p: Purge, now: nat, slot: nat, published: bool) returns (i: Item)
      requires Valid() && k !in index && k.path in paths && size + running < maxSize
      modifies this
      ensures fresh(i) && i !in old(abs.records) && Valid()
      ensures var q := Admit(old(abs), i, k, p.all, p.protection, now, slot);
        abs == if published then QueueState.Published(q, k.path, slot) else q
    {
      i := new Item(k, p.all, p.protection, now);
      AdmitKeeps(abs, i, k, p.all, p.protection, now, slot);
      Insert(i, k, p.all, p.protection, now, slot);
      if published {
        StatsKeep(abs, QueueState.Published(abs, k.path, slot).stats);
        AddStat(k.path, Invalidated, 1, slot);
      }
    }

    method AcceptTask(k: TaskKey, p: Purge, now: nat, slot: nat, published: bool) returns (task: Item)
      requires Valid() && k.path in paths && (k in index || size + running < maxSize)
      modifies this, abs.records.Keys
      ensures Valid() && Accept.requires(old(abs), task, k, p.all, p.protection, now, slot, published)
      ensures abs == Accept(old(abs), task, k, p.all, p.protection, now, slot, published)
      ensures if k in old(index) then task == old(index)[k] else fresh(task)
    {
      if k in index {
        assert EntryOk(abs, k);
        task := index[k];
        Join(task, p, slot, published);
      } else {
        task := Create(k, p, now, slot, published);
      }
    }

    /** The queue part of the decision: a known path, and the task's own entry or room for one. */
    predicate Admits(k: TaskKey, a: Attempt)
      reads this
    {
      a.acquired && k.path in paths && (k in index || (size + running < maxSize && a.space))
    }

    ghost function Answer(p: Purge, a: Attempt, space: GenerationState?): Reply
      reads this, if space == null then {} else {space}
    {
      if a.exiting then Exiting
      else if TooLong(NameOf(space), p.key, p.all) then Refused
      else if !Admits(KeyOf(p, NameOf(space)), a) then Full
      else if space == null then Accepted
      else Passed(space.Answer(p.key, p.expected, a.published))
    }

    /** The reply to a purge: what each return code stands for. */
    lemma AnswerExactly(p: Purge, a: Attempt, space: GenerationState?)
      ensures var k := KeyOf(p, NameOf(space));
        var long := if space != null then |p.key| > 8096 else !p.all && |p.key| > 512;
        var room := a.acquired && k.path in paths && (k in index || (size + running < maxSize && a.space));
        var current := space == null || p.expected.None?
          || GenerationKey.Decode(space.name, p.expected.value) ==
             GenerationKey.Key(GenerationKey.Parts(space.epoch, InvalidationLog.Live(space.log, p.key), p.key));
        var spent := space != null && space.serial == UINT64_MAX;
        && (Answer(p, a, space) == Exiting <==> a.exiting)
        && (Answer(p, a, space) == Refused <==>
              !a.exiting && (long || (room && space != null && a.published && !current)))
        && (Answer(p, a, space) == Full <==> !a.exiting && !long && !(room && (space == null || a.published)))
        && (Answer(p, a, space) == Failed <==> !a.exiting && !long && room && a.published && current && spent)
        && (Answer(p, a, space) == Accepted <==>
              !a.exiting && !long && room && (space == null || a.published) && current && !spent)
    {
    }

    /** Publishing does not touch the queue. */
    method PublishBeside(p: Purge, a: Attempt, space: GenerationState?) returns (reply: Reply)
      requires Valid() && Sound(space)
      modifies Footprint(space)
      ensures Valid() && unchanged(this) && Sound(space)
      ensures reply == if space == null then Accepted else old(Passed(space.Answer(p.key, p.expected, a.published)))
      ensures space != null && reply != Accepted ==> space.log == old(space.log)
      ensures space != null && reply == Accepted ==>
                space.log == old(space.log) + [old(space.Outcome(p.key, p.all, p.expected.Some?, a.budget))]
    {
      reply := Publish(p, a, space);
    }

    /** Taking the task does not touch the namespace. */
    method AcceptBeside(k: TaskKey, p: Purge, now: nat, slot: nat, space: GenerationState?) returns (task: Item)
      requires Valid() && k.path in paths && (k in index || size + running < maxSize)
      requires Sound(space)
      modifies this, abs.records.Keys
      ensures Valid() && Accept.requires(old(abs), task, k, p.all, p.protection, now, slot, space != null)
      ensures abs == Accept(old(abs), task, k, p.all, p.protection, now, slot, space != null)
      ensures if k in old(index) then task == old(index)[k] else fresh(task)
      ensures Sound(space) && (space != null ==> space.log == old(space.log))
    {
      task := AcceptTask(k, p, now, slot, space != null);
    }

    /** What an accepted purge leaves behind: its task in the queue and its entry in the namespace's log. */
    method Commit(k: TaskKey, p: Purge, a: Attempt, space: GenerationState?, slot: nat)
      returns (reply: Reply, task: Item?)
      requires Valid() && k.path in paths && (k in index || size + running < maxSize)
      requires Sound(space)
      modifies this, abs.records.Keys, Footprint(space)
      ensures Valid() && Sound(space)
      ensures reply == if space == null then Accepted else old(Passed(space.Answer(p.key, p.expected, a.published)))
      ensures reply != Accepted ==> task == null && abs == old(abs) && (space != null ==> space.log == old(space.log))
      ensures reply == Accepted ==>
                task != null && Accept.requires(old(abs), task, k, p.all, p.protection, a.now, slot, space != null)
                && abs == Accept(old(abs), task, k, p.all, p.protection, a.now, slot, space != null)
                && if k in old(index) then task == old(index)[k] else fresh(task)
      ensures reply == Accepted && space != null ==>
                space.log == old(space.log) + [old(space.Outcome(p.key, p.all, p.expected.Some?, a.budget))]
    {
      task := null;
      reply := PublishBeside(p, a, space);
      if reply == Accepted {
        task := AcceptBeside(k, p, a.now, slot, space);
      }
    }

    /**
     ngx_http_cache_purge_enqueue. A purge is accepted together with its task: the namespace gains its
     log entry exactly when the queue takes the task, and nothing at all changes otherwise.
     */
    method Enqueue(p: Purge, a: Attempt, space: GenerationState?, slot: nat) returns (reply: Reply, task: Item?)
      requires Valid() && Sound(space)
      modifies this, abs.records.Keys, Footprint(space)
      ensures Valid() && Sound(space)
      ensures reply == old(Answer(p, a, space))
      ensures reply != Accepted ==> task == null && abs == old(abs) && (space != null ==> space.log == old(space.log))
      ensures reply == Accepted ==>
                var k := KeyOf(p, NameOf(space));
                && task != null
                && Accept.requires(old(abs), task, k, p.all, p.protection, a.now, slot, space != null)
                && abs == Accept(old(abs), task, k, p.all, p.protection, a.now, slot, space != null)
                && if k in old(index) then task == old(index)[k] else fresh(task)
      ensures reply == Accepted && space != null ==>
                space.log == old(space.log) + [old(space.Outcome(p.key, p.all, p.expected.Some?, a.budget))]
    {
      task := null;
      if a.exiting {
        return Exiting, null;
      }
      if TooLong(NameOf(space), p.key, p.all) {
        return Refused, null;
      }
      var len := Paths.PathLength(p.path);
      var k := TaskKey(p.path[..len], Tagged(NameOf(space), p.key, p.all));
      if !Admits(k, a) {
        return Full, null;
      }
      reply, task := Commit(k, p, a, space, slot);
    }

    // ---- take ----

    method IsReady(item: Item, now: nat) returns (ready: bool)
      requires Holds() && item in abs.records
      ensures ready == Ready(abs.records[item], now)
    {
      assert item.View() == abs.records[item];
      ready := item.retryAt == 0 || Reached(now, item.retryAt);
    }

    /** Delayed tasks at the head are rotated to the tail until a ready one is found or the window ends. */
    method ScanPending(now: nat) returns (inspected: nat)
      requires Holds() && size == |pending| && forall i :: i in pending ==> i in abs.records
      modifies this`pending
      ensures inspected <= |old(pending)|
      ensures inspected == FirstReady(old(pending), abs.records, now, if size < SCAN_LIMIT then size else SCAN_LIMIT)
      ensures pending == old(pending)[inspected..] + old(pending)[..inspected]
    {
      ghost var was := pending;
      var window := if size < SCAN_LIMIT then size else SCAN_LIMIT;
      inspected := 0;
      var found := false;
      while inspected < window && !found
        invariant inspected <= window
        invariant pending == was[inspected..] + was[..inspected]
        invariant found ==> inspected < window && Ready(abs.records[was[inspected]], now)
        invariant forall j :: 0 <= j < inspected ==> !Ready(abs.records[was[j]], now)
        decreases window - inspected, !found
      {
        RotateOnce(was, inspected);
        var item := pending[0];
        found := IsReady(item, now);
        if !found {
          pending := pending[1..] + [item];
          inspected := inspected + 1;
        }
      }
      FirstReadyIs(was, abs.records, now, window, inspected);
    }

    method Rotate(now: nat) returns (inspected: nat)
      requires Mirrors() && abs.size == |abs.pending| && forall i :: i in abs.pending ==> i in abs.records
      modifies this`pending, this`abs
      ensures Mirrors() && inspected == Scan(old(abs), now) && abs == RotatePending(old(abs), inspected)
    {
      inspected := ScanPending(now);
      abs := RotatePending(abs, inspected);
    }

    method Activate(item: Item, pid: nat, slot: nat)
      requires Mirrors() && TakeHead.requires(abs, pid, slot) && item == abs.pending[0]
      modifies this
      ensures Fields() && abs == TakeHead(old(abs), pid, slot)
    {
      abs := TakeHead(abs, pid, slot);
      stats := Bump(Bump(stats, slot, item.path, Started, 1), slot, item.path, StartedFull, Flag(item.purgeAll));
      Shift(item);
    }

    method Start(item: Item, pid: nat, slot: nat)
      requires Mirrors() && TakeHead.requires(abs, pid, slot) && item == abs.pending[0]
      modifies this, item
      ensures Mirrors() && abs == TakeHead(old(abs), pid, slot)
    {
      Activate(item, pid, slot);
      item.Claim(pid, slot, epochs[slot]);
    }

    // ---- handing back and completing ----

    method ListAgain(i: Item, now: nat, slot: nat)
      requires Mirrors() && GiveBack.requires(abs, i, now, slot)
      modifies this
      ensures Fields() && abs == GiveBack(old(abs), i, now, slot)
    {
      abs := GiveBack(abs, i, now, slot);
      Return(i, now);
      stats := Bump(Bump(Bump(stats, slot, i.path, Finished, 1), slot, i.path, Enqueued, 1),
                    slot, i.path, EnqueuedFull, Flag(i.purgeAll));
    }

    method Requeue(i: Item, now: nat, slot: nat)
      requires Mirrors() && GiveBack.requires(abs, i, now, slot)
      modifies this, i
      ensures Mirrors() && abs == GiveBack(old(abs), i, now, slot)
    {
      ListAgain(i, now, slot);
      i.Release(now);
    }

    method Remove(i: Item, slot: nat)
      requires Mirrors() && Retire.requires(abs, i, slot)
      modifies this
      ensures Mirrors() && abs == Retire(old(abs), i, slot)
    {
      assert i.View() == abs.records[i];
      abs := Retire(abs, i, slot);
      Unlink(i);
      index := index - {TaskKey(i.path, i.key)};
      stats := Bump(stats, slot, i.path, Finished, 1);
    }

    method AddStat(path: Bytes, metric: Metric, v: nat, slot: nat)
      requires Mirrors()
      modifies this`abs, this`stats
      ensures Mirrors() && abs == old(abs).(stats := Bump(old(abs.stats), slot, path, metric, v))
    {
      abs := abs.(stats := Bump(abs.stats, slot, path, metric, v));
      stats := Bump(stats, slot, path, metric, v);
    }

    method AddTally(path: Bytes, t: Tally, slot: nat)
      requires Mirrors()
      modifies this`abs, this`stats
      ensures Mirrors() && abs == Report(old(abs), path, t, slot)
    {
      AddStat(path, Deleted, t.deleted, slot);
      AddStat(path, DeleteErrors, t.deleteErrors, slot);
      AddStat(path, ScanErrors, t.scanErrors, slot);
      AddStat(path, DeletedBytes, t.bytes, slot);
    }

    method Reschedule(i: Item, retries: nat, retryAt: nat)
      requires Mirrors() && i in abs.records
      modifies this`abs, i
      ensures Mirrors()
      ensures var r := old(abs.records[i]).(retries := retries, retryAt := retryAt);
        abs == old(abs).(records := old(abs.records)[i := r])
    {
      abs := abs.(records := abs.records[i := abs.records[i].(retries := retries, retryAt := retryAt)]);
      i.Reschedule(retries, retryAt);
    }

    method Judge(i: Item, complete: bool, errors: bool) returns (d: Decision)
      requires Holds() && i in abs.records
      ensures d == Decide(abs.records[i], complete, errors)
    {
      assert i.View() == abs.records[i];
      d := if i.rerun || !complete then Replay
      else if errors && i.retries < 3 then Retry
      else if errors then GiveUp
      else Done;
    }

    method Again(i: Item, now: nat, slot: nat)
      requires Mirrors() && Finish.requires(abs, i, false, false, now, slot)
      modifies this, i
      ensures Mirrors() && abs == Finish(old(abs), i, false, false, now, slot)
    {
      Reschedule(i, 0, 0);
      Requeue(i, now, slot);
    }

    method Delay(i: Item, now: nat, slot: nat)
      requires Mirrors() && i in abs.records
      modifies this`abs, this`stats, i
      ensures Mirrors() && abs == Delayed(old(abs), i, now, slot)
    {
      assert i.View() == abs.records[i];
      Reschedule(i, i.retries + 1, (now + RetryDelay(i.retries)) % MSEC_MODULUS);
      AddStat(i.path, Retried, 1, slot);
    }

    method Later(i: Item, now: nat, slot: nat)
      requires Mirrors() && Finish.requires(abs, i, true, true, now, slot)
      requires Decide(abs.records[i], true, true) == Retry
      modifies this, i
      ensures Mirrors() && abs == Finish(old(abs), i, true, true, now, slot)
    {
      Delay(i, now, slot);
      Requeue(i, now, slot);
    }

    /** The decision at the end of a pass: replay, delayed retry, completion or giving up. */
    method Settle(i: Item, complete: bool, errors: bool, now: nat, slot: nat)
      requires Mirrors() && Finish.requires(abs, i, complete, errors, now, slot)
      modifies this, i
      ensures Mirrors() && abs == Finish(old(abs), i, complete, errors, now, slot)
    {
      assert i.View() == abs.records[i];
      var d := Judge(i, complete, errors);
      if d == Replay {
        Again(i, now, slot);
      } else if d == Retry {
        Later(i, now, slot);
      } else {
        if d == GiveUp {
          AddStat(i.path, Exhausted, 1, slot);
        }
        Remove(i, slot);
      }
    }

    /** The locked section at the end of a pass over the task's cache path. */
    method Complete(i: Item, complete: bool, t: Tally, now: nat, slot: nat)
      requires Valid() && i in abs.active
      modifies this, i
      ensures Valid() && i in old(abs.records) && old(abs.running) > 0
      ensures abs == Finish(Report(old(abs), i.path, t, slot), i, complete, t.Errors(), now, slot)
    {
      StatsKeep(abs, Report(abs, i.path, t, slot).stats);
      FinishKeeps(Report(abs, i.path, t, slot), i, complete, t.Errors(), now, slot);
      AddTally(i.path, t, slot);
      Settle(i, complete, t.Errors(), now, slot);
    }

    // ---- recovery ----

    method RecoverOne(alive: set<nat>, now: nat, slot: nat)
      requires Mirrors() && RecoverHead.requires(abs, alive, now, slot)
      modifies this, abs.active[0]
      ensures Mirrors() && abs == RecoverHead(old(abs), alive, now, slot)
    {
      var item := active[0];
      assert item.View() == abs.records[item];
      assert owners[..] == abs.owners && epochs[..] == abs.epochs;
      if item.slot < owners.Length && item.slot < epochs.Length
        && owners[item.slot] == item.owner && epochs[item.slot] == item.epoch && item.owner in alive
      {
        active := active[1..] + [item];
        abs := abs.(active := active);
      } else {
        Requeue(item, now, slot);
      }
    }

    /** The turns that are left bring the queue to `goal`. */
    ghost predicate Towards(left: nat, alive: set<nat>, now: nat, slot: nat, goal: Queue<Item>)
      reads this`abs
    {
      WellFormed(abs) && left <= abs.running && Recover(abs, left, alive, now, slot) == goal
    }

    method RecoverTurn(alive: set<nat>, now: nat, slot: nat, ghost left: nat, ghost goal: Queue<Item>)
      requires Valid() && 0 < left && Towards(left, alive, now, slot, goal)
      modifies this, abs.records.Keys
      ensures Valid() && abs.records.Keys == old(abs.records.Keys)
      ensures Towards(left - 1, alive, now, slot, goal)
    {
      RecoverKeeps(abs, alive, now, slot);
      ListedItem(abs, abs.active[0]);
      RecoverOne(alive, now, slot);
    }

    /** ngx_http_cache_purge_recover; `alive` is what kill(pid, 0) reports during the pass. */
    method RecoverTasks(acquired: bool, alive: set<nat>, now: nat, slot: nat)
      requires Valid()
      modifies this, abs.records.Keys
      ensures Valid()
      ensures abs == if acquired then Recover(old(abs), RecoverLimit(old(abs)), alive, now, slot) else old(abs)
    {
      if !acquired {
        return;
      }
      var limit := if running < SCAN_LIMIT then running else SCAN_LIMIT;
      ghost var goal, keys := Recover(abs, limit, alive, now, slot), abs.records.Keys;
      ghost var left: nat := limit;
      var n := 0;
      while n < limit
        invariant n + left == limit && Valid() && abs.records.Keys == keys
        invariant Towards(left, alive, now, slot, goal)
      {
        RecoverTurn(alive, now, slot, left, goal);
        n, left := n + 1, left - 1;
      }
    }

    // ---- taking a task ----

    /** The first half of process_queue: nothing to do, nothing ready, or a claimed task. */
    method TakeNext(acquired: bool, now: nat, pid: nat, slot: nat) returns (item: Item?, idle: bool)
      requires Valid() && slot < SLOTS
      modifies this, abs.records.Keys
      ensures Valid() && idle == (acquired && old(pending) == [])
      ensures !acquired || old(pending) == [] ==> item == null && abs == old(abs)
      ensures acquired && old(pending) != [] ==> Taken(old(abs), abs, item, now, pid, slot)
    {
      item, idle := null, false;
      if !acquired {
        return;
      }
      if pending == [] {
        idle := true;
        return;
      }
      ghost var was := abs;
      PendingRecorded(was);
      var window := if size < SCAN_LIMIT then size else SCAN_LIMIT;
      var inspected := Rotate(now);
      RotateKeeps(was, inspected);
      if inspected == window {
        return;
      }
      TakeKeeps(abs, pid, slot);
      RotateOnce(was.pending, inspected);
      ListedItem(was, was.pending[inspected]);
      item := pending[0];
      Start(item, pid, slot);
    }

    // ---- worker slots ----

    /** The slot part of init_worker; `previous` is the slot this process held before a reload. */
    method Enter(slot: nat, pid: nat, previous: Option<nat>) returns (ok: bool)
      requires Valid()
      modifies owners, epochs, this`abs
      ensures Valid()
      ensures ok <==> slot < SLOTS && (Moves(old(abs), slot, pid, previous) ==> old(abs.epochs)[slot] != UINT64_MAX)
      ensures abs == if ok then StartWorker(old(abs), slot, pid, previous) else old(abs)
    {
      if slot >= SLOTS {
        return false;
      }
      assert owners[..] == abs.owners && epochs[..] == abs.epochs;
      if previous != Some(slot) || owners[slot] != pid {
        if epochs[slot] == UINT64_MAX {
          return false;
        }
        epochs[slot] := epochs[slot] + 1;
      }
      owners[slot] := pid;
      SlotsKeep(abs, owners[..], epochs[..]);
      abs := StartWorker(abs, slot, pid, previous);
      ok := true;
    }

    /** The slot part of exit_worker. */
    method Leave(slot: nat)
      requires Valid() && slot < SLOTS
      modifies owners, this`abs
      ensures Valid() && abs == StopWorker(old(abs), slot)
    {
      SlotsKeep(abs, abs.owners[slot := 0], abs.epochs);
      owners[slot] := 0;
      abs := StopWorker(abs, slot);
    }
  }

  lemma RotateOnce<T>(s: seq<T>, k: nat)
    requires k < |s|
    ensures s[k..] + s[..k] != [] && (s[k..] + s[..k])[0] == s[k]
    ensures (s[k..] + s[..k])[1..] + [s[k]] == s[k + 1..] + s[..k + 1]
  {
  }
}
