/**
 The cleanup queue over a whole run of many workers: they start, take tasks, walk, finish, hand
 tasks back, crash and have their pids and slots reused, while recovery runs on whatever kill(pid, 0)
 reports. Every step is one locked section (or one piece of lock-free work) of
 ngx_cache_purge_queue.c. The history of a task is kept beside it to say what its acceptance is owed.
 */
module QueueProtocol {
  import opened Bytes
  import opened QueueState
  import opened QueueInvariants

  // A pass over a task's path: when it started, with which protection and configured namespaces, and how far
  // the walk is.
  datatype Pass<I> = Pass(
    item: I, startedAt: nat, protection: Protection, namespaces: set<Bytes>, walked: bool, complete: bool,
    tally: Tally)

  // A live process; `namespaces` is its configuration.
  datatype Worker<I> = Worker(slot: nat, epoch: nat, namespaces: set<Bytes>, pass: Option<Pass<I>>)

  // The last acceptance of a task, the start of its last pass, and the erroneous passes that were
  // retried since that acceptance.
  datatype History = History(acceptedAt: nat, protection: Protection, startedAt: nat, failed: nat)

  datatype Sys<I(==)> = Sys(q: Queue<I>, workers: map<nat, Worker<I>>, history: map<I, History>, clock: nat)

  datatype Step<I> =
    | Start(pid: nat, at: nat, namespaces: set<Bytes>)  // init_worker in a new process
    | Reload(pid: nat, namespaces: set<Bytes>)          // init_worker again in the same process
    | Enqueue(i: I, k: TaskKey, purgeAll: bool, protection: Protection, now: nat, slot: nat, published: bool)
    | Pick(pid: nat, now: nat)                          // process_queue takes a task, or finds none ready
    | Walk(pid: nat, tally: Tally, ends: bool)          // a slice of the walk
    | End(pid: nat, final: bool, now: nat)              // the locked end of a pass, or the hand-back on exit
    | Leave(pid: nat)                                   // exit_worker gives up the slot
    | Crash(pid: nat)
    | Sweep(alive: set<nat>, now: nat, slot: nat)       // recover

  /** A namespace task whose namespace is no longer configured completes without a walk. */
  predicate Orphaned(key: Bytes, namespaces: set<Bytes>) {
    key != [] && key[0] == 'G' && key[1..] !in namespaces
  }

  /** Spelled out: the task is that of a namespace, and the namespace is not configured. */
  lemma OrphanedExactly(key: Bytes, namespaces: set<Bytes>)
    ensures Orphaned(key, namespaces) <==> exists name: Bytes :: key == ['G'] + name && name !in namespaces
  {
    if Orphaned(key, namespaces) {
      assert key == ['G'] + key[1..];
    }
    forall name: Bytes | key == ['G'] + name
      ensures key[1..] == name
    {
    }
  }

  /** What the code checks, or the operating system grants, before a step. */
  ghost predicate Guard<I>(s: Sys<I>, step: Step<I>) {
    match step
    // The master gives a new process a slot that no live process holds.
    case Start(pid, at, _) =>
      && pid !in s.workers && at < SLOTS && (forall p :: p in s.workers ==> s.workers[p].slot != at)
      && at < |s.q.epochs| && s.q.epochs[at] != UINT64_MAX
    case Reload(pid, _) => pid in s.workers
    case Enqueue(i, k, _, _, _, slot, _) =>
      && slot < SLOTS && k.path in s.q.paths
      && (k in s.q.index || (s.q.size + s.q.running < s.q.maxSize && i !in s.q.records))
    case Pick(pid, now) => pid in s.workers && s.workers[pid].pass.None? && s.q.pending != []
    case Walk(pid, _, _) => pid in s.workers && s.workers[pid].pass.Some? && !s.workers[pid].pass.value.complete
    case End(pid, final, _) =>
      pid in s.workers && s.workers[pid].pass.Some? && (final || s.workers[pid].pass.value.complete)
    case Leave(pid) => pid in s.workers && s.workers[pid].pass.None?
    case Crash(pid) => pid in s.workers
    // The oracle is sound: it never reports a live worker dead. It may report others alive.
    case Sweep(alive, _, slot) => slot < SLOTS && s.workers.Keys <= alive
  }

  /** The preconditions of the queue's functions; `NothingUndefined` shows that they always hold. */
  ghost predicate Defined<I>(s: Sys<I>, step: Step<I>) {
    match step
    case Start(pid, at, _) => |s.q.owners| == |s.q.epochs| == SLOTS
    case Enqueue(_, k, _, _, _, _, _) => k in s.q.index ==> s.q.index[k] in s.q.records && s.q.index[k] in s.history
    case Pick(pid, now) =>
      && WellFormed(s.q) && pid in s.workers && s.workers[pid].slot < SLOTS && s.q.pending != []
      && (forall i :: i in s.q.pending ==> i in s.q.records && i in s.history)
    case End(pid, _, _) =>
      && pid in s.workers && s.workers[pid].pass.Some? && s.q.running > 0
      && s.workers[pid].pass.value.item in s.q.records && s.workers[pid].pass.value.item in s.history
    case Reload(pid, _) =>
      pid in s.workers && s.workers[pid].slot < |s.q.owners| && s.workers[pid].slot < |s.q.epochs|
    case Leave(pid) => pid in s.workers && s.workers[pid].slot < |s.q.owners|
    case Sweep(_, _, _) => WellFormed(s.q)
    case _ => true
  }

  ghost function Next<I>(s: Sys<I>, step: Step<I>): Sys<I>
    requires Guard(s, step) && Defined(s, step)
  {
    var q := s.q;
    var s' := match step
      case Start(pid, at, namespaces) =>
        var q' := StartWorker(q, at, pid, None);
        s.(q := q', workers := s.workers[pid := Worker(at, q'.epochs[at], namespaces, None)])
      case Reload(pid, namespaces) =>
        var slot := s.workers[pid].slot;
        var q' := StartWorker(q, slot, pid, Some(slot));
        s.(q := q', workers := s.workers[pid := s.workers[pid].(epoch := q'.epochs[slot], namespaces := namespaces)])
      case Enqueue(i, k, purgeAll, protection, now, slot, published) =>
        var task := if k in q.index then q.index[k] else i;
        var startedAt := if k in q.index then s.history[task].startedAt else 0;
        s.(q := Accept(q, i, k, purgeAll, protection, now, slot, published),
           history := s.history[task := History(s.clock, protection, startedAt, 0)])
      case Pick(pid, now) => Picked(s, pid, now)
      case Walk(pid, tally, ends) =>
        var w := s.workers[pid];
        var pass := w.pass.value.(tally := tally, walked := ends, complete := ends);
        s.(workers := s.workers[pid := w.(pass := Some(pass))])
      case End(pid, final, now) => Ended(s, pid, now)
      case Leave(pid) => s.(q := StopWorker(q, s.workers[pid].slot), workers := s.workers - {pid})
      case Crash(pid) => s.(workers := s.workers - {pid})
      case Sweep(alive, now, slot) => s.(q := Recover(q, RecoverLimit(q), alive, now, slot));
    s'.(clock := s.clock + 1)
  }

  function Begun<I>(item: I, at: nat, r: Record, namespaces: set<Bytes>): Pass<I> {
    Pass(item, at, r.protection, namespaces, false, Orphaned(r.key, namespaces), Tally(0, 0, 0, 0))
  }

  ghost function Picked<I>(s: Sys<I>, pid: nat, now: nat): Sys<I>
    requires Defined(s, Pick(pid, now))
  {
    var k, w := Scan(s.q, now), s.workers[pid];
    var q := RotatePending(s.q, k);
    if k == ScanWindow(s.q) then s.(q := q)
    else
      var item := q.pending[0];
      var r := s.q.records[item];
      s.(q := TakeHead(q, pid, w.slot),
         workers := s.workers[pid := w.(pass := Some(Begun(item, s.clock, r, w.namespaces)))],
         history := s.history[item := s.history[item].(startedAt := s.clock)])
  }

  ghost function Ended<I>(s: Sys<I>, pid: nat, now: nat): Sys<I>
    requires Defined(s, End(pid, true, now))
  {
    var w := s.workers[pid];
    var p := w.pass.value;
    var r, h := s.q.records[p.item], s.history[p.item];
    var q, decision := Report(s.q, r.path, p.tally, w.slot), Decide(r, p.complete, p.tally.Errors());
    s.(q := Finish(q, p.item, p.complete, p.tally.Errors(), now, w.slot),
       workers := s.workers[pid := w.(pass := None)],
       history := s.history[p.item := h.(failed := h.failed + (if decision == Retry then 1 else 0))])
  }

  // ---- what every reachable state keeps ----

  /** What a task owes to its last acceptance. */
  predicate Owes(r: Record, h: History, clock: nat) {
    && h.acceptedAt < clock && h.startedAt < clock && r.retries <= h.failed
    // A delay is over once a pass has begun.
    && (r.running ==> r.retryAt == 0)
    // A pending task will be walked with the protection of its last acceptance,
    && (!r.running ==> r.protection == h.protection)
    // a running one is walked with it, unless it was accepted again meanwhile: then a replay will be.
    && (r.running && !r.rerun ==> r.protection == h.protection && h.acceptedAt < h.startedAt)
    && (r.rerun ==> r.next == Some(h.protection) && h.startedAt < h.acceptedAt)
  }

  /** The worker in process `pid` holds the task of its pass. */
  predicate Held(w: Worker, pid: nat, r: Record, h: History) {
    && w.pass.Some?
    && r.running && r.owner == pid && r.slot == w.slot && r.epoch == w.epoch
    && w.pass.value.startedAt == h.startedAt && w.pass.value.protection == r.protection
    && (w.pass.value.complete && !w.pass.value.walked ==> Orphaned(r.key, w.pass.value.namespaces))
  }

  ghost predicate Tracked<I>(s: Sys<I>, i: I)
    requires i in s.q.records
  {
    i in s.history && Owes(s.q.records[i], s.history[i], s.clock)
  }

  ghost predicate Seated<I>(s: Sys<I>, p: nat)
    requires p in s.workers && |s.q.owners| == |s.q.epochs| == SLOTS
  {
    var w := s.workers[p];
    && w.slot < SLOTS && s.q.owners[w.slot] == p && s.q.epochs[w.slot] == w.epoch
    && (w.pass.Some? ==>
          var i := w.pass.value.item;
          i in s.q.records && i in s.history && Held(w, p, s.q.records[i], s.history[i]))
  }

  ghost predicate Tasks<I>(s: Sys<I>) {
    forall i {:trigger Tracked(s, i)} :: i in s.q.records ==> Tracked(s, i)
  }

  ghost predicate Workers<I>(s: Sys<I>)
    requires |s.q.owners| == |s.q.epochs| == SLOTS
  {
    forall p {:trigger Seated(s, p)} :: p in s.workers ==> Seated(s, p)
  }

  ghost predicate Inv<I>(s: Sys<I>) {
    WellFormed(s.q) && Tasks(s) && Workers(s)
  }

  /** Two live workers never hold the same task. */
  lemma ExclusiveOwnership<I>(s: Sys<I>, p1: nat, p2: nat)
    requires Inv(s) && p1 in s.workers && p2 in s.workers && p1 != p2
    requires s.workers[p1].pass.Some? && s.workers[p2].pass.Some?
    ensures s.workers[p1].pass.value.item != s.workers[p2].pass.value.item
  {
    assert Seated(s, p1) && Seated(s, p2);
  }

  lemma NothingUndefined<I>(s: Sys<I>, step: Step<I>)
    requires Inv(s) && Guard(s, step)
    ensures Defined(s, step)
  {
    match step
    case Enqueue(_, k, _, _, _, _, _) =>
      if k in s.q.index {
        assert EntryOk(s.q, k) && Tracked(s, s.q.index[k]);
      }
    case Pick(pid, now) =>
      assert Seated(s, pid);
      PendingRecorded(s.q);
      forall i | i in s.q.pending
        ensures i in s.q.records && i in s.history
      {
        assert Tracked(s, i);
      }
    case End(pid, _, _) =>
      assert Seated(s, pid);
      assert ItemOk(s.q, s.workers[pid].pass.value.item);
    case Leave(pid) => assert Seated(s, pid);
    case Reload(pid, _) => assert Seated(s, pid);
    case _ =>
  }

  // ---- each step keeps it ----

  /** A step that only rewrites, moves or drops one task, whose worker (if any) is accounted for. */
  lemma OneTask<I>(s: Sys<I>, s': Sys<I>, i: I, pid: Option<nat>)
    requires Inv(s) && WellFormed(s'.q) && s.clock <= s'.clock
    requires s'.q.owners == s.q.owners && s'.q.epochs == s.q.epochs
    requires forall j :: j in s'.q.records && j != i ==>
               j in s.q.records && s'.q.records[j] == s.q.records[j]
    requires forall j :: j in s.q.records && j != i ==> j in s'.q.records
    requires forall j :: j in s.history && j != i ==> j in s'.history && s'.history[j] == s.history[j]
    requires i in s'.q.records ==> Tracked(s', i)
    requires s'.workers.Keys == s.workers.Keys
    requires forall p :: p in s.workers && pid != Some(p) ==> s'.workers[p] == s.workers[p]
    requires pid.Some? && pid.value in s'.workers ==> Seated(s', pid.value)
    requires forall p :: p in s.workers && pid != Some(p) ==>
               s.workers[p].pass.Some? && s.workers[p].pass.value.item == i ==> Seated(s', p)
    ensures Inv(s')
  {
    forall j | j in s'.q.records
      ensures Tracked(s', j)
    {
      if j != i {
        assert Tracked(s, j);
      }
    }
    forall p | p in s'.workers
      ensures Seated(s', p)
    {
      assert Seated(s, p);
    }
  }

  lemma Tick<I>(s: Sys<I>)
    requires Inv(s)
    ensures Inv(s.(clock := s.clock + 1))
  {
    var s' := s.(clock := s.clock + 1);
    forall i | i in s'.q.records
      ensures Tracked(s', i)
    {
      assert Tracked(s, i);
    }
    forall p | p in s'.workers
      ensures Seated(s', p)
    {
      assert Seated(s, p);
    }
  }

  /** Reordering the lists and counting changes nothing a worker or a task depends on. */
  lemma SameTasks<I>(s: Sys<I>, q: Queue<I>)
    requires Inv(s) && WellFormed(q)
    requires q.records == s.q.records && q.owners == s.q.owners && q.epochs == s.q.epochs
    ensures Inv(s.(q := q))
  {
    var s' := s.(q := q);
    forall i | i in s'.q.records
      ensures Tracked(s', i)
    {
      assert Tracked(s, i);
    }
    forall p | p in s'.workers
      ensures Seated(s', p)
    {
      assert Seated(s, p);
    }
  }

  lemma StartKeeps<I>(s: Sys<I>, pid: nat, at: nat, namespaces: set<Bytes>)
    requires Inv(s) && Guard(s, Start(pid, at, namespaces))
    ensures Inv(Next(s, Start(pid, at, namespaces)))
  {
    Tick(s);
    var s0, s' := s.(clock := s.clock + 1), Next(s, Start(pid, at, namespaces));
    SlotsKeep(s.q, s'.q.owners, s'.q.epochs);
    forall i | i in s'.q.records
      ensures Tracked(s', i)
    {
      assert Tracked(s0, i);
    }
    forall p | p in s'.workers
      ensures Seated(s', p)
    {
      assert p != pid ==> Seated(s0, p);
    }
  }

  /** The worker's own state changes; the queue does not. */
  lemma WorkerKeeps<I>(s: Sys<I>, s': Sys<I>, pid: nat)
    requires Inv(s) && s'.q == s.q && s'.history == s.history && s'.clock == s.clock + 1
    requires s'.workers.Keys <= s.workers.Keys + {pid}
    requires forall p :: p in s'.workers && p != pid ==> s'.workers[p] == s.workers[p]
    requires pid in s'.workers ==> Seated(s', pid)
    ensures Inv(s')
  {
    Tick(s);
    var s0 := s.(clock := s.clock + 1);
    forall i | i in s'.q.records
      ensures Tracked(s', i)
    {
      assert Tracked(s0, i);
    }
    forall p | p in s'.workers
      ensures Seated(s', p)
    {
      assert p != pid ==> Seated(s0, p);
    }
  }

  /** A worker that enters its own slot again keeps its epoch, and with it the task it holds. */
  lemma ReloadKeepsTheQueue<I>(s: Sys<I>, pid: nat, namespaces: set<Bytes>)
    requires Inv(s) && Guard(s, Reload(pid, namespaces)) && Defined(s, Reload(pid, namespaces))
    ensures Next(s, Reload(pid, namespaces)).q == s.q
    ensures Next(s, Reload(pid, namespaces)).workers[pid] == s.workers[pid].(namespaces := namespaces)
  {
    assert Seated(s, pid);
    var slot := s.workers[pid].slot;
    assert s.q.owners[slot := pid] == s.q.owners;
  }

  lemma ReloadKeeps<I>(s: Sys<I>, pid: nat, namespaces: set<Bytes>)
    requires Inv(s) && Guard(s, Reload(pid, namespaces)) && Defined(s, Reload(pid, namespaces))
    ensures Inv(Next(s, Reload(pid, namespaces)))
  {
    assert Seated(s, pid);
    ReloadKeepsTheQueue(s, pid, namespaces);
    var s' := Next(s, Reload(pid, namespaces));
    assert Seated(s', pid);
    WorkerKeeps(s, s', pid);
  }

  lemma WalkKeeps<I>(s: Sys<I>, pid: nat, tally: Tally, ends: bool)
    requires Inv(s) && Guard(s, Walk(pid, tally, ends))
    ensures Inv(Next(s, Walk(pid, tally, ends)))
  {
    assert Seated(s, pid);
    var s' := Next(s, Walk(pid, tally, ends));
    assert Seated(s', pid);
    WorkerKeeps(s, s', pid);
  }

  lemma CrashKeeps<I>(s: Sys<I>, pid: nat)
    requires Inv(s) && Guard(s, Crash(pid))
    ensures Inv(Next(s, Crash(pid)))
  {
    WorkerKeeps(s, Next(s, Crash(pid)), pid);
  }

  /** A worker that leaves gives up its slot: no task that was ever taken in it counts as owned any more. */
  lemma LeavingFreesSlot<I>(s: Sys<I>, pid: nat, i: I, alive: set<nat>)
    requires Inv(s) && Guard(s, Leave(pid)) && Defined(s, Leave(pid)) && i in s.q.records
    requires s.q.records[i].slot == s.workers[pid].slot && s.q.records[i].owner != 0
    ensures var t := Next(s, Leave(pid));
      && pid !in t.workers && t.q == s.q.(owners := s.q.owners[s.workers[pid].slot := 0])
      && !Owned(t.q.records[i], t.q.owners, t.q.epochs, alive)
  {
  }

  lemma LeaveKeeps<I>(s: Sys<I>, pid: nat)
    requires Inv(s) && Guard(s, Leave(pid)) && Defined(s, Leave(pid))
    ensures Inv(Next(s, Leave(pid)))
  {
    Tick(s);
    var s0, s' := s.(clock := s.clock + 1), Next(s, Leave(pid));
    SlotsKeep(s.q, s'.q.owners, s'.q.epochs);
    forall i | i in s'.q.records
      ensures Tracked(s', i)
    {
      assert Tracked(s0, i);
    }
    assert Seated(s0, pid);
    forall p | p in s'.workers
      ensures Seated(s', p)
    {
      assert Seated(s0, p);
    }
  }

  lemma EnqueueKeeps<I>(s: Sys<I>, i: I, k: TaskKey, purgeAll: bool, protection: Protection, now: nat, slot: nat,
                        published: bool)
    requires var step := Enqueue(i, k, purgeAll, protection, now, slot, published);
      Inv(s) && Guard(s, step) && Defined(s, step)
    ensures Inv(Next(s, Enqueue(i, k, purgeAll, protection, now, slot, published)))
  {
    var s' := Next(s, Enqueue(i, k, purgeAll, protection, now, slot, published));
    var task := if k in s.q.index then s.q.index[k] else i;
    if k in s.q.index {
      DedupKeeps(s.q, task, protection, slot);
      StatsKeep(Dedup(s.q, task, protection, slot), s'.q.stats);
      assert ItemOk(s.q, task) && Tracked(s, task);
    } else {
      AdmitKeeps(s.q, i, k, purgeAll, protection, now, slot);
      StatsKeep(Admit(s.q, i, k, purgeAll, protection, now, slot), s'.q.stats);
    }
    assert Tracked(s', task);
    forall p | p in s.workers && s.workers[p].pass.Some? && s.workers[p].pass.value.item == task
      ensures Seated(s', p)
    {
      assert Seated(s, p);
    }
    OneTask(s, s', task, None);
  }

  lemma PickKeeps<I>(s: Sys<I>, pid: nat, now: nat)
    requires Inv(s) && Guard(s, Pick(pid, now)) && Defined(s, Pick(pid, now))
    ensures Inv(Next(s, Pick(pid, now)))
  {
    var k := Scan(s.q, now);
    RotateKeeps(s.q, k);
    if k == ScanWindow(s.q) {
      SameTasks(s, RotatePending(s.q, k));
      Tick(s.(q := RotatePending(s.q, k)));
    } else {
      ClaimKeeps(s, pid, now);
    }
  }

  lemma ClaimKeeps<I>(s: Sys<I>, pid: nat, now: nat)
    requires Inv(s) && Guard(s, Pick(pid, now)) && Defined(s, Pick(pid, now)) && Scan(s.q, now) < ScanWindow(s.q)
    ensures Inv(Next(s, Pick(pid, now)))
  {
    var s', q, w := Next(s, Pick(pid, now)), RotatePending(s.q, Scan(s.q, now)), s.workers[pid];
    RotateKeeps(s.q, Scan(s.q, now));
    assert Seated(s, pid);
    TakeKeeps(q, pid, w.slot);
    var item := q.pending[0];
    assert item == s.q.pending[Scan(s.q, now)];
    ListedItem(s.q, item);
    assert ItemOk(s.q, item) && Tracked(s, item);
    assert Tracked(s', item);
    assert Seated(s', pid);
    forall p | p in s.workers && s.workers[p].pass.Some?
      ensures s.workers[p].pass.value.item != item
    {
      assert Seated(s, p);
    }
    OneTask(s, s', item, Some(pid));
  }

  /** What the end of a pass makes of the task records. */
  lemma FinishRecords<I>(q: Queue<I>, i: I, complete: bool, errors: bool, now: nat, slot: nat)
    requires i in q.records && q.running > 0
    ensures var q', d := Finish(q, i, complete, errors, now, slot), Decide(q.records[i], complete, errors);
      && q'.owners == q.owners && q'.epochs == q.epochs
      && (d == Done || d == GiveUp ==> q'.records == q.records - {i})
      && (d == Replay ==> q'.records == q.records[i := Released(q.records[i].(retries := 0, retryAt := 0), now)])
      && (d == Retry ==> q'.records == q.records[i := Released(Delayed(q, i, now, slot).records[i], now)])
  {
  }

  lemma EndKeeps<I>(s: Sys<I>, pid: nat, final: bool, now: nat)
    requires Inv(s) && Guard(s, End(pid, final, now)) && Defined(s, End(pid, final, now))
    ensures Inv(Next(s, End(pid, final, now)))
  {
    var s', w := Next(s, End(pid, final, now)), s.workers[pid];
    var p := w.pass.value;
    var i := p.item;
    assert Seated(s, pid) && Tracked(s, i) && ItemOk(s.q, i);
    var q := Report(s.q, s.q.records[i].path, p.tally, w.slot);
    StatsKeep(s.q, q.stats);
    FinishKeeps(q, i, p.complete, p.tally.Errors(), now, w.slot);
    FinishRecords(q, i, p.complete, p.tally.Errors(), now, w.slot);
    assert i in s'.q.records ==> Tracked(s', i);
    assert Seated(s', pid);
    forall o | o in s.workers && o != pid && s.workers[o].pass.Some?
      ensures s.workers[o].pass.value.item != i
    {
      ExclusiveOwnership(s, o, pid);
    }
    OneTask(s, s', i, Some(pid));
  }

  /** One turn of recovery under a sound oracle: a live worker's task is left alone. */
  lemma RecoverTurnKeeps<I>(s: Sys<I>, alive: set<nat>, now: nat, slot: nat)
    requires Inv(s) && s.workers.Keys <= alive && s.q.active != []
    ensures RecoverHead.requires(s.q, alive, now, slot)
    ensures Inv(s.(q := RecoverHead(s.q, alive, now, slot)))
  {
    RecoverKeeps(s.q, alive, now, slot);
    var i := s.q.active[0];
    var s' := s.(q := RecoverHead(s.q, alive, now, slot));
    if Owned(s.q.records[i], s.q.owners, s.q.epochs, alive) {
      SameTasks(s, s'.q);
    } else {
      assert Tracked(s, i) && ItemOk(s.q, i);
      assert Tracked(s', i);
      forall p | p in s.workers && s.workers[p].pass.Some?
        ensures s.workers[p].pass.value.item != i
      {
        assert Seated(s, p);
      }
      OneTask(s, s', i, None);
    }
  }

  lemma {:induction false} RecoverPassKeeps<I>(s: Sys<I>, n: nat, alive: set<nat>, now: nat, slot: nat)
    requires Inv(s) && s.workers.Keys <= alive && n <= s.q.running
    ensures Inv(s.(q := Recover(s.q, n, alive, now, slot)))
    decreases n
  {
    if n != 0 {
      RecoverTurnKeeps(s, alive, now, slot);
      var q := RecoverHead(s.q, alive, now, slot);
      RecoverPassKeeps(s.(q := q), n - 1, alive, now, slot);
      assert s.(q := q).(q := Recover(q, n - 1, alive, now, slot)) == s.(q := Recover(s.q, n, alive, now, slot));
    }
  }

  lemma SweepKeeps<I>(s: Sys<I>, alive: set<nat>, now: nat, slot: nat)
    requires Inv(s) && Guard(s, Sweep(alive, now, slot))
    ensures Inv(Next(s, Sweep(alive, now, slot)))
  {
    RecoverPassKeeps(s, RecoverLimit(s.q), alive, now, slot);
    Tick(s.(q := Recover(s.q, RecoverLimit(s.q), alive, now, slot)));
  }

  lemma StepKeeps<I>(s: Sys<I>, step: Step<I>)
    requires Inv(s) && Guard(s, step)
    ensures Defined(s, step) && Inv(Next(s, step))
  {
    NothingUndefined(s, step);
    match step
    case Start(pid, at, namespaces) => StartKeeps(s, pid, at, namespaces);
    case Reload(pid, namespaces) => ReloadKeeps(s, pid, namespaces);
    case Enqueue(i, k, purgeAll, protection, now, slot, published) =>
      EnqueueKeeps(s, i, k, purgeAll, protection, now, slot, published);
    case Pick(pid, now) => PickKeeps(s, pid, now);
    case Walk(pid, tally, ends) => WalkKeeps(s, pid, tally, ends);
    case End(pid, final, now) => EndKeeps(s, pid, final, now);
    case Leave(pid) => LeaveKeeps(s, pid);
    case Crash(pid) => CrashKeeps(s, pid);
    case Sweep(alive, now, slot) => SweepKeeps(s, alive, now, slot);
  }

  // ---- whole runs ----

  ghost predicate Init<I>(s: Sys<I>) {
    WellFormed(s.q) && s.q.records == map[] && s.q.stats == map[] && s.workers == map[] && s.clock == 0
  }

  ghost predicate Run<I>(states: seq<Sys<I>>, steps: seq<Step<I>>) {
    && |states| == |steps| + 1 && Init(states[0])
    && forall j {:trigger steps[j]} :: 0 <= j < |steps| ==>
         Guard(states[j], steps[j]) && Defined(states[j], steps[j]) && states[j + 1] == Next(states[j], steps[j])
  }

  lemma {:induction false} RunKeeps<I>(states: seq<Sys<I>>, steps: seq<Step<I>>, j: nat)
    requires Run(states, steps) && j < |states|
    ensures Inv(states[j]) && states[j].clock == j
  {
    if j > 0 {
      RunKeeps(states, steps, j - 1);
      StepKeeps(states[j - 1], steps[j - 1]);
    }
  }

  /** In every reachable state a task has at most one live holder, and that holder's task is active. */
  lemma OneHolder<I>(states: seq<Sys<I>>, steps: seq<Step<I>>, j: nat, p1: nat, p2: nat)
    requires Run(states, steps) && j < |states|
    requires p1 in states[j].workers && p2 in states[j].workers && p1 != p2
    requires states[j].workers[p1].pass.Some? && states[j].workers[p2].pass.Some?
    ensures states[j].workers[p1].pass.value.item != states[j].workers[p2].pass.value.item
    ensures states[j].workers[p1].pass.value.item in states[j].q.active
  {
    RunKeeps(states, steps, j);
    var s := states[j];
    ExclusiveOwnership(s, p1, p2);
    assert Seated(s, p1) && ItemOk(s.q, s.workers[p1].pass.value.item);
  }

  lemma {:induction false} RecoveryLeaves<I>(s: Sys<I>, n: nat, alive: set<nat>, now: nat, slot: nat, p: nat)
    requires Inv(s) && s.workers.Keys <= alive && n <= s.q.running
    requires p in s.workers && s.workers[p].pass.Some?
    ensures var i := s.workers[p].pass.value.item;
      i in s.q.records && i in Recover(s.q, n, alive, now, slot).records
      && Recover(s.q, n, alive, now, slot).records[i] == s.q.records[i]
    decreases n
  {
    assert Seated(s, p);
    if n != 0 {
      RecoverTurnKeeps(s, alive, now, slot);
      var q := RecoverHead(s.q, alive, now, slot);
      RecoveryLeaves(s.(q := q), n - 1, alive, now, slot, p);
    }
  }

  /** Recovery never touches the task of a live worker, whatever else the oracle reports. */
  lemma RecoverySparesTheLiving<I>(s: Sys<I>, alive: set<nat>, now: nat, slot: nat, p: nat)
    requires Inv(s) && Guard(s, Sweep(alive, now, slot)) && p in s.workers && s.workers[p].pass.Some?
    ensures var s', i := Next(s, Sweep(alive, now, slot)), s.workers[p].pass.value.item;
      i in s.q.records && i in s'.q.records && s'.q.records[i] == s.q.records[i] && i in s'.q.active
  {
    RecoveryLeaves(s, RecoverLimit(s.q), alive, now, slot, p);
    SweepKeeps(s, alive, now, slot);
    var s' := Next(s, Sweep(alive, now, slot));
    assert Seated(s', p) && ItemOk(s'.q, s.workers[p].pass.value.item);
  }

  /** A task taken over from a dead worker is ready at once, and keeps what is left of its retry window. */
  lemma RecoveredIsReady<I>(s: Sys<I>, alive: set<nat>, now: nat, slot: nat, i: I, later: nat)
    requires Inv(s) && Guard(s, Sweep(alive, now, slot)) && i in s.q.active
    ensures var s' := Next(s, Sweep(alive, now, slot));
      && i in s.q.records && i in s'.q.records
      && QueueState.Ready(s'.q.records[i], later) && s'.q.records[i].retries == s.q.records[i].retries
  {
    ListedItem(s.q, i);
    assert Tracked(s, i) && ItemOk(s.q, i);
    RecoverPaths(s.q, RecoverLimit(s.q), alive, now, slot, i);
  }

  /**
   A pass of recovery gives a task back exactly if it is among the tasks the pass inspects and its owner's slot
   has been left, entered anew or given to another process, or its owner is reported dead.
   */
  lemma RecoveredExactly<I>(s: Sys<I>, alive: set<nat>, now: nat, slot: nat, j: nat)
    requires Inv(s) && Guard(s, Sweep(alive, now, slot)) && j < |s.q.active|
    ensures var s', i := Next(s, Sweep(alive, now, slot)), s.q.active[j];
      && i in s.q.records && i in s'.q.records
      && (var r := s.q.records[i];
          var owned :=
            r.slot < SLOTS && s.q.owners[r.slot] == r.owner && s.q.epochs[r.slot] == r.epoch && r.owner in alive;
          i in s'.q.pending <==> j < 64 && !owned)
      && (i in s'.q.pending <==> !s'.q.records[i].running)
  {
    var s', i, n := Next(s, Sweep(alive, now, slot)), s.q.active[j], RecoverLimit(s.q);
    ListedItem(s.q, i);
    RecoverSplits(s.q, n, alive, now, slot);
    SortedExactly(s.q.active[..n], s.q, alive, false, i);
    OnceActive(s.q, j, n);
    RecoverPaths(s.q, n, alive, now, slot, i);
    RecoverWellFormed(s.q, n, alive, now, slot);
    ListedItem(s'.q, i);
    assert ItemOk(s'.q, i);
  }

  /** A crashed worker's task is given back by a pass that inspects it and finds the process dead. */
  lemma CrashedTaskComesBack<I>(s: Sys<I>, pid: nat, j: nat, alive: set<nat>, now: nat, slot: nat)
    requires Inv(s) && pid in s.workers && s.workers[pid].pass.Some? && pid !in alive
    requires j < |s.q.active| && j < 64 && s.q.active[j] == s.workers[pid].pass.value.item
    requires var t := Next(s, Crash(pid)); Guard(t, Sweep(alive, now, slot)) && Defined(t, Sweep(alive, now, slot))
    ensures s.q.active[j] in Next(Next(s, Crash(pid)), Sweep(alive, now, slot)).q.pending
  {
    assert Seated(s, pid);
    StepKeeps(s, Crash(pid));
    RecoveredExactly(Next(s, Crash(pid)), alive, now, slot, j);
  }

  lemma OnceActive<I>(q: Queue<I>, j: nat, n: nat)
    requires Partitioned(q) && j < |q.active| && n <= |q.active|
    ensures q.active[j] in q.active[..n] <==> j < n
  {
    var x := q.active[j];
    ListedItem(q, x);
    assert q.active == q.active[..n] + q.active[n..];
    if j < n {
      assert q.active[..n][j] == x;
    } else {
      assert q.active[n..][j - n] == x;
      assert multiset(q.active[..n])[x] == 0;
    }
  }

  /**
   So the task of a worker that crashed is not given back once its pid runs again in another slot, until a
   process enters the old slot.
   */
  lemma ReturnedPidHoldsTask<I>(s: Sys<I>, pid: nat, at: nat, namespaces: set<Bytes>, q: nat, j: nat,
                                alive: set<nat>, now: nat, slot: nat)
    requires Inv(s) && pid in s.workers && s.workers[pid].pass.Some? && at != s.workers[pid].slot
    requires j < |s.q.active| && s.q.active[j] == s.workers[pid].pass.value.item
    requires Guard(Next(s, Crash(pid)), Start(pid, at, namespaces)) && |s.q.owners| == |s.q.epochs| == SLOTS
    requires Guard(Next(Next(s, Crash(pid)), Start(pid, at, namespaces)), Sweep(alive, now, slot))
    ensures var t := Next(Next(s, Crash(pid)), Start(pid, at, namespaces));
      Inv(t) && s.q.active[j] !in Next(t, Sweep(alive, now, slot)).q.pending
  {
    var t := Next(Next(s, Crash(pid)), Start(pid, at, namespaces));
    assert Seated(s, pid);
    StepKeeps(s, Crash(pid));
    StepKeeps(Next(s, Crash(pid)), Start(pid, at, namespaces));
    RecoveredExactly(t, alive, now, slot, j);
  }

  lemma EnteredSlotFreesTask<I>(s: Sys<I>, pid: nat, namespaces: set<Bytes>, i: I, alive: set<nat>, later: set<nat>)
    requires Inv(s) && i in s.q.records && Owned(s.q.records[i], s.q.owners, s.q.epochs, alive)
    requires Guard(s, Start(pid, s.q.records[i].slot, namespaces))
             && Defined(s, Start(pid, s.q.records[i].slot, namespaces))
    ensures var t := Next(s, Start(pid, s.q.records[i].slot, namespaces));
      i in t.q.records && !Owned(t.q.records[i], t.q.owners, t.q.epochs, later)
  {
  }

  // ---- no accepted purge is lost ----

  /** The pass that ends in this step settles what the acceptance of the task is owed. */
  ghost predicate Settles<I>(s: Sys<I>, step: Step<I>, i: I) {
    && step.End? && step.pid in s.workers && s.workers[step.pid].pass.Some? && i in s.q.records && i in s.history
    && var p, h := s.workers[step.pid].pass.value, s.history[i];
    && p.item == i && p.complete
    && p.startedAt > h.acceptedAt && p.protection == h.protection
    && (p.tally.Errors() ==> h.failed >= 3)
    && (p.walked || Orphaned(s.q.records[i].key, p.namespaces))
  }

  /** The only way out of the index is the end of a complete pass that started after the last acceptance. */
  lemma LeavesOnlySettled<I>(s: Sys<I>, step: Step<I>, i: I)
    requires Inv(s) && Guard(s, step) && Defined(s, step)
    requires i in s.q.records && i !in Next(s, step).q.records
    ensures Settles(s, step, i)
  {
    match step
    case Sweep(alive, now, slot) =>
      RecoverRecords(s.q, RecoverLimit(s.q), alive, now, slot);
    case End(pid, final, now) =>
      var w := s.workers[pid];
      var p := w.pass.value;
      assert Seated(s, pid) && Tracked(s, p.item);
      var q := Report(s.q, s.q.records[p.item].path, p.tally, w.slot);
      FinishRecords(q, p.item, p.complete, p.tally.Errors(), now, w.slot);
    case _ =>
  }

  /**
   A task leaves exactly at the end of a complete pass that began after its last acceptance, if the pass had no
   errors or was the last of three retries.
   */
  lemma LeavesExactly<I>(s: Sys<I>, step: Step<I>, i: I)
    requires Inv(s) && Guard(s, step) && Defined(s, step) && i in s.q.records
    ensures i in s.history
    ensures i !in Next(s, step).q.records <==>
            && step.End? && s.workers[step.pid].pass.value.item == i && s.workers[step.pid].pass.value.complete
            && s.workers[step.pid].pass.value.startedAt > s.history[i].acceptedAt
            && var t := s.workers[step.pid].pass.value.tally;
               (t.scanErrors != 0 || t.deleteErrors != 0 ==> s.q.records[i].retries == 3)
  {
    assert Tracked(s, i) && ItemOk(s.q, i);
    match step
    case Sweep(alive, now, slot) =>
      RecoverRecords(s.q, RecoverLimit(s.q), alive, now, slot);
    case End(pid, final, now) =>
      var w := s.workers[pid];
      var p := w.pass.value;
      assert Seated(s, pid) && Tracked(s, p.item) && ItemOk(s.q, p.item);
      var q := Report(s.q, s.q.records[p.item].path, p.tally, w.slot);
      FinishRecords(q, p.item, p.complete, p.tally.Errors(), now, w.slot);
    case _ =>
  }

  /**
   Nothing but an acceptance, a hand-back or a replay gives a task new retries: taking it, walking, crashes and
   recovery leave their number alone, and a failed pass uses one up.
   */
  lemma RetriesAreSpent<I>(s: Sys<I>, step: Step<I>, i: I)
    requires Inv(s) && Guard(s, step) && Defined(s, step)
    requires i in s.q.records && i in Next(s, step).q.records
    requires !(step.Enqueue? && step.k == TaskKey(s.q.records[i].path, s.q.records[i].key))
    ensures var r, r' := s.q.records[i], Next(s, step).q.records[i];
      if step.End? && s.workers[step.pid].pass.value.item == i
      then r'.retries == if r.rerun || !s.workers[step.pid].pass.value.complete then 0 else r.retries + 1
      else r'.retries == r.retries
  {
    assert Tracked(s, i) && ItemOk(s.q, i);
    match step
    case Sweep(alive, now, slot) => RecoverPaths(s.q, RecoverLimit(s.q), alive, now, slot, i);
    case End(pid, final, now) =>
      var w := s.workers[pid];
      var p := w.pass.value;
      assert Seated(s, pid) && ItemOk(s.q, p.item);
      var q := Report(s.q, s.q.records[p.item].path, p.tally, w.slot);
      FinishRecords(q, p.item, p.complete, p.tally.Errors(), now, w.slot);
    case Enqueue(_, k, _, _, _, _, _) => assert k in s.q.index ==> EntryOk(s.q, k);
    case _ =>
  }

  lemma {:induction false} RecoverRecords<I>(q: Queue<I>, n: nat, alive: set<nat>, now: nat, slot: nat)
    requires WellFormed(q) && n <= q.running
    ensures Recover(q, n, alive, now, slot).records.Keys == q.records.Keys
    ensures Recover(q, n, alive, now, slot).index == q.index
    decreases n
  {
    if n != 0 {
      RecoverKeeps(q, alive, now, slot);
      ListedItem(q, q.active[0]);
      RecoverRecords(RecoverHead(q, alive, now, slot), n - 1, alive, now, slot);
    }
  }

  /** While its key stays indexed a task keeps its place and its acceptances only get younger. */
  lemma StaysOrSettles<I>(s: Sys<I>, step: Step<I>, k: TaskKey)
    requires Inv(s) && Guard(s, step) && Defined(s, step) && k in s.q.index
    ensures s.q.index[k] in s.q.records && s.q.index[k] in s.history
    ensures var i, s' := s.q.index[k], Next(s, step);
      || Settles(s, step, i)
      || (k in s'.q.index && s'.q.index[k] == i && i in s'.history
            && s'.history[i].acceptedAt >= s.history[i].acceptedAt)
  {
    assert EntryOk(s.q, k);
    var i, s' := s.q.index[k], Next(s, step);
    assert Tracked(s, i);
    if i in s'.q.records {
      KeepsKey(s, step, i);
      StepKeeps(s, step);
      assert ItemOk(s'.q, i) && Tracked(s', i);
    } else {
      LeavesOnlySettled(s, step, i);
    }
  }

  lemma KeepsKey<I>(s: Sys<I>, step: Step<I>, i: I)
    requires Inv(s) && Guard(s, step) && Defined(s, step)
    requires i in s.q.records && i in s.history && i in Next(s, step).q.records
    ensures var r, r' := s.q.records[i], Next(s, step).q.records[i]; r'.path == r.path && r'.key == r.key
    ensures i in Next(s, step).history && Next(s, step).history[i].acceptedAt >= s.history[i].acceptedAt
  {
    assert Tracked(s, i);
    match step
    case Sweep(alive, now, slot) => RecoverPaths(s.q, RecoverLimit(s.q), alive, now, slot, i);
    case End(pid, final, now) => EndKeepsKey(s, pid, final, now, i);
    case _ =>
  }

  lemma EndKeepsKey<I>(s: Sys<I>, pid: nat, final: bool, now: nat, i: I)
    requires Inv(s) && Guard(s, End(pid, final, now)) && Defined(s, End(pid, final, now))
    requires i in s.q.records && i in s.history && i in Next(s, End(pid, final, now)).q.records
    ensures var s' := Next(s, End(pid, final, now));
      && s'.q.records[i].path == s.q.records[i].path && s'.q.records[i].key == s.q.records[i].key
      && i in s'.history && s'.history[i].acceptedAt == s.history[i].acceptedAt
  {
    var w := s.workers[pid];
    var p := w.pass.value;
    var q := Report(s.q, s.q.records[p.item].path, p.tally, w.slot);
    FinishRecords(q, p.item, p.complete, p.tally.Errors(), now, w.slot);
  }

  lemma {:induction false} RecoverPaths<I>(q: Queue<I>, n: nat, alive: set<nat>, now: nat, slot: nat, i: I)
    requires WellFormed(q) && n <= q.running && i in q.records
    ensures var q' := Recover(q, n, alive, now, slot);
      && i in q'.records && q'.records[i].path == q.records[i].path && q'.records[i].key == q.records[i].key
      && q'.records[i].retryAt == q.records[i].retryAt && q'.records[i].retries == q.records[i].retries
    decreases n
  {
    if n != 0 {
      RecoverKeeps(q, alive, now, slot);
      ListedItem(q, q.active[0]);
      RecoverPaths(RecoverHead(q, alive, now, slot), n - 1, alive, now, slot, i);
    }
  }

  // ---- where a pass comes from ----

  /** The pass of worker `pid` in state `j` is the one that it began in step `p`. */
  ghost predicate BeganAt<I>(states: seq<Sys<I>>, steps: seq<Step<I>>, j: nat, pid: nat, p: nat)
    requires |states| == |steps| + 1 && j <= |steps|
  {
    && p < j && steps[p].Pick? && steps[p].pid == pid && pid in states[p].workers
    && pid in states[j].workers && states[j].workers[pid].pass.Some?
    && states[j].workers[pid].pass.value.startedAt == p
    && states[j].workers[pid].pass.value.namespaces == states[p].workers[pid].namespaces
  }

  /** A slice of that worker ended the walk after step `p`, with these counts. */
  ghost predicate WalkEnded<I>(steps: seq<Step<I>>, p: nat, j: nat, pid: nat, tally: Tally)
    requires j <= |steps|
  {
    exists w: nat {:trigger steps[w]} :: p < w < j && steps[w] == Walk(pid, tally, true)
  }

  ghost predicate Origin<I>(states: seq<Sys<I>>, steps: seq<Step<I>>, j: nat, pid: nat)
    requires |states| == |steps| + 1 && j <= |steps|
  {
    pid in states[j].workers && states[j].workers[pid].pass.Some? ==>
      var pass := states[j].workers[pid].pass.value;
      && BeganAt(states, steps, j, pid, pass.startedAt)
      && (pass.walked ==> WalkEnded(steps, pass.startedAt, j, pid, pass.tally))
  }

  /** What a step makes of a worker's pass: nothing, a new one, a slice more, or its end. */
  lemma PassAfter<I>(s: Sys<I>, step: Step<I>, pid: nat)
    requires Guard(s, step) && Defined(s, step)
    requires pid in Next(s, step).workers && Next(s, step).workers[pid].pass.Some?
    ensures pid in s.workers
    ensures var pass := Next(s, step).workers[pid].pass.value;
      || (step.Pick? && step.pid == pid && !pass.walked
          && pass.startedAt == s.clock && pass.namespaces == s.workers[pid].namespaces)
      || (s.workers[pid].pass.Some? && var was := s.workers[pid].pass.value;
          && pass.startedAt == was.startedAt && pass.namespaces == was.namespaces
          && (pass == was || (step == Walk(pid, pass.tally, pass.walked))))
  {
  }

  /** A new pass has counted nothing, and is complete only for the task of a namespace that is not configured. */
  lemma NewPass<I>(s: Sys<I>, pid: nat, now: nat)
    requires Guard(s, Pick(pid, now)) && Defined(s, Pick(pid, now)) && Scan(s.q, now) < ScanWindow(s.q)
    ensures var s' := Next(s, Pick(pid, now)); var i := s.q.pending[Scan(s.q, now)]; var r := s.q.records[i];
      && pid in s'.workers && s'.workers[pid].pass.Some?
      && var pass := s'.workers[pid].pass.value;
         && pass.item == i && pass.protection == r.protection && !pass.walked && pass.tally == Tally(0, 0, 0, 0)
         && (pass.complete <==> exists name: Bytes :: r.key == ['G'] + name && name !in s.workers[pid].namespaces)
  {
    OrphanedExactly(s.q.records[s.q.pending[Scan(s.q, now)]].key, s.workers[pid].namespaces);
  }

  lemma {:induction false} PassesHaveOrigins<I>(states: seq<Sys<I>>, steps: seq<Step<I>>, j: nat, pid: nat)
    requires Run(states, steps) && j < |states|
    ensures Origin(states, steps, j, pid)
  {
    if j > 0 && pid in states[j].workers && states[j].workers[pid].pass.Some? {
      PassesHaveOrigins(states, steps, j - 1, pid);
      RunKeeps(states, steps, j - 1);
      assert states[j] == Next(states[j - 1], steps[j - 1]);
      PassAfter(states[j - 1], steps[j - 1], pid);
    }
  }

  /**
   The pass that ends in step `t` began in step `p`, and a slice of it ended the walk; or the key is that of a
   namespace which the worker did not have in its configuration when it took the task.
   */
  ghost predicate PassOf<I>(states: seq<Sys<I>>, steps: seq<Step<I>>, p: nat, t: nat, k: TaskKey)
    requires |states| == |steps| + 1 && t < |steps|
  {
    && steps[t].End? && BeganAt(states, steps, t, steps[t].pid, p)
    && (|| WalkEnded(steps, p, t, steps[t].pid, states[t].workers[steps[t].pid].pass.value.tally)
        || exists name: Bytes :: k.key == ['G'] + name && name !in states[p].workers[steps[t].pid].namespaces)
  }

  /** A pass that began after step `a` settled the task of key `k` in step `t`. */
  ghost predicate SettledAt<I>(states: seq<Sys<I>>, steps: seq<Step<I>>, a: nat, t: nat, k: TaskKey)
    requires |states| == |steps| + 1
  {
    && a < t < |steps| && k in states[t].q.index
    && Settles(states[t], steps[t], states[t].q.index[k])
    && states[t].history[states[t].q.index[k]].acceptedAt >= a
    && exists p: nat {:trigger PassOf(states, steps, p, t, k)} :: a < p && PassOf(states, steps, p, t, k)
  }

  /** Whatever settles a task has walked, or its namespace was gone. */
  lemma SettlingPass<I>(states: seq<Sys<I>>, steps: seq<Step<I>>, t: nat, k: TaskKey) returns (p: nat)
    requires Run(states, steps) && t < |steps| && k in states[t].q.index
    requires Settles(states[t], steps[t], states[t].q.index[k])
    ensures PassOf(states, steps, p, t, k) && p > states[t].history[states[t].q.index[k]].acceptedAt
  {
    var s := states[t];
    RunKeeps(states, steps, t);
    assert EntryOk(s.q, k);
    PassesHaveOrigins(states, steps, t, steps[t].pid);
    p := s.workers[steps[t].pid].pass.value.startedAt;
    OrphanedExactly(k.key, states[p].workers[steps[t].pid].namespaces);
  }

  ghost predicate Owing<I>(s: Sys<I>, k: TaskKey, a: nat) {
    k in s.q.index && s.q.index[k] in s.history && s.history[s.q.index[k]].acceptedAt >= a
  }

  lemma AcceptanceOwes<I>(s: Sys<I>, step: Step<I>)
    requires Inv(s) && Guard(s, step) && Defined(s, step) && step.Enqueue?
    ensures Owing(Next(s, step), step.k, s.clock)
  {
  }

  /**
   An accepted purge starts afresh: its task has three retries again, waits for no delay, and will be walked with
   the protection of this acceptance, after the pass that may be running.
   */
  lemma AcceptedIsReady<I>(s: Sys<I>, step: Step<I>, later: nat)
    requires Inv(s) && Guard(s, step) && Defined(s, step) && step.Enqueue?
    ensures var q := Next(s, step).q;
      && step.k in q.index && q.index[step.k] in q.records
      && var r := q.records[q.index[step.k]];
         && r.path == step.k.path && r.key == step.k.key && r.retries == 0 && QueueState.Ready(r, later)
         && (if r.running then r.rerun && r.next == Some(step.protection) else r.protection == step.protection)
         && (r.running <==> step.k in s.q.index && s.q.index[step.k] in s.q.active)
  {
    if step.k in s.q.index {
      assert EntryOk(s.q, step.k) && ItemOk(s.q, s.q.index[step.k]);
    }
  }

  lemma OwingStep<I>(states: seq<Sys<I>>, steps: seq<Step<I>>, a: nat, j: nat, k: TaskKey)
    requires Run(states, steps) && a < j < |steps| && Owing(states[j], k, a)
    ensures Owing(states[j + 1], k, a) || SettledAt(states, steps, a, j, k)
  {
    RunKeeps(states, steps, j);
    StaysOrSettles(states[j], steps[j], k);
    if Settles(states[j], steps[j], states[j].q.index[k]) {
      var p := SettlingPass(states, steps, j, k);
    }
  }

  /**
   No accepted purge is lost: whatever happens after its acceptance in step `a`, replays, retries,
   crashes, recoveries, hand-backs and reuse of pids and slots, its task is still queued or a complete
   pass that began after `a` has settled it.
   */
  lemma {:induction false} AcceptedIsWalked<I>(states: seq<Sys<I>>, steps: seq<Step<I>>, a: nat, j: nat)
    requires Run(states, steps) && a < j < |states| && steps[a].Enqueue?
    ensures Owing(states[j], steps[a].k, a) || exists t: nat :: t < j && SettledAt(states, steps, a, t, steps[a].k)
  {
    if j == a + 1 {
      RunKeeps(states, steps, a);
      AcceptanceOwes(states[a], steps[a]);
    } else {
      AcceptedIsWalked(states, steps, a, j - 1);
      if Owing(states[j - 1], steps[a].k, a) {
        OwingStep(states, steps, a, j - 1, steps[a].k);
      }
    }
  }

  /** The key is a literal one, or that of a namespace that every worker has configured all the time. */
  ghost predicate AlwaysConfigured<I>(states: seq<Sys<I>>, key: Bytes) {
    forall name: Bytes, j, pid :: key == ['G'] + name && 0 <= j < |states| && pid in states[j].workers ==>
      name in states[j].workers[pid].namespaces
  }

  /** The task of such a key is still queued, or a worker took it after `a`, walked to the end and settled it. */
  lemma ConfiguredIsReallyWalked<I>(states: seq<Sys<I>>, steps: seq<Step<I>>, a: nat, j: nat)
    requires Run(states, steps) && a < j < |states| && steps[a].Enqueue?
    requires AlwaysConfigured(states, steps[a].k.key)
    ensures Owing(states[j], steps[a].k, a) ||
            exists p: nat, w: nat, t: nat {:trigger steps[p], steps[w], steps[t]} :: a < p < w < t < j
              && steps[p].Pick? && steps[w].Walk? && steps[t].End? && steps[w].ends
              && steps[p].pid == steps[w].pid == steps[t].pid && SettledAt(states, steps, a, t, steps[a].k)
  {
    AcceptedIsWalked(states, steps, a, j);
    var k := steps[a].k;
    if !Owing(states[j], k, a) {
      var t: nat :| t < j && SettledAt(states, steps, a, t, k);
      var p: nat :| a < p && PassOf(states, steps, p, t, k);
      assert WalkEnded(steps, p, t, steps[t].pid, states[t].workers[steps[t].pid].pass.value.tally);
      var w: nat :| p < w < t && steps[w] == Walk(steps[t].pid, states[t].workers[steps[t].pid].pass.value.tally, true);
      assert steps[p].Pick? && steps[w].Walk? && steps[t].End?;
    }
  }
}
