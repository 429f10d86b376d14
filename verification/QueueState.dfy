/**
 The cleanup queue of ngx_cache_purge_queue.c as a value: the pending and active lists, the index,
 the task records, the owner and epoch slots and the counters, and what each section under the
 zone lock makes of them. Tasks are named by a type of the caller's choosing (`I`): the queue class
 uses its task objects.
 */
module QueueState {
  import opened Bytes

  const SLOTS: nat := 1024          // NGX_MAX_PROCESSES
  const SCAN_LIMIT: nat := 64       // tasks inspected under one lock
  const MSEC_MODULUS: nat := UINT64_MAX + 1

  // The temporary paths a task must not touch, as captured when it was accepted.
  type Protection = seq<Bytes>

  datatype Record = Record(
    path: Bytes, key: Bytes, purgeAll: bool,
    running: bool, rerun: bool,
    owner: nat, slot: nat, epoch: nat,
    enqueuedAt: nat, retryAt: nat, retries: nat,
    protection: Protection, next: Option<Protection>)

  datatype Metric =
    | Enqueued | EnqueuedFull | Started | StartedFull | Finished
    | Deduplicated | Invalidated | Retried | Exhausted
    | Deleted | DeleteErrors | ScanErrors | DeletedBytes

  datatype Counter = Counter(slot: nat, path: Bytes, metric: Metric)

  // Tasks are indexed by cache path and full tagged key ('L' + key, or 'G' + namespace).
  datatype TaskKey = TaskKey(path: Bytes, key: Bytes)

  datatype Queue<I(==)> = Queue(
    pending: seq<I>, active: seq<I>,
    size: nat, running: nat, oldest: nat,
    owners: seq<nat>, epochs: seq<nat>,
    maxSize: nat, paths: set<Bytes>,
    index: map<TaskKey, I>, records: map<I, Record>,
    stats: map<Counter, nat>)

  // ---- counters ----

  function Value(stats: map<Counter, nat>, slot: nat, path: Bytes, metric: Metric): nat {
    if Counter(slot, path, metric) in stats then stats[Counter(slot, path, metric)] else 0
  }

  /** stat_add: only the worker's own slot changes, and it saturates. */
  function Bump(stats: map<Counter, nat>, slot: nat, path: Bytes, metric: Metric, v: nat): map<Counter, nat> {
    var was := Value(stats, slot, path, metric);
    stats[Counter(slot, path, metric) := if was + v <= UINT64_MAX then was + v else UINT64_MAX]
  }

  // ---- lists ----

  function Without<I(==)>(s: seq<I>, i: I): seq<I> {
    if s == [] then [] else if s[0] == i then s[1..] else [s[0]] + Without(s[1..], i)
  }

  lemma {:induction false} WithoutMultiset<I>(s: seq<I>, i: I)
    ensures multiset(Without(s, i)) == multiset(s) - multiset{i}
    ensures i in s ==> |Without(s, i)| == |s| - 1
  {
    if s != [] {
      WithoutMultiset(s[1..], i);
      assert s == [s[0]] + s[1..];
    }
  }

  lemma RotateMultiset<I>(s: seq<I>, k: nat)
    requires k <= |s|
    ensures multiset(s[k..] + s[..k]) == multiset(s)
  {
    assert s == s[..k] + s[k..];
  }

  // ---- time ----

  /** `(ngx_msec_int_t) (now - at) >= 0` on 64-bit millisecond counters that wrap. */
  predicate Reached(now: nat, at: nat) {
    (now - at) % MSEC_MODULUS < MSEC_MODULUS / 2
  }

  predicate Ready(r: Record, now: nat) {
    r.retryAt == 0 || Reached(now, r.retryAt)
  }

  // ---- well-formedness ----

  ghost predicate ItemOk<I>(q: Queue<I>, i: I)
    requires i in q.records
  {
    var r := q.records[i];
    && (r.running <==> i in q.active)
    && (r.rerun ==> r.running)
    && (r.next.Some? ==> r.rerun)
    && r.retries <= 3
    && r.path in q.paths
    && TaskKey(r.path, r.key) in q.index && q.index[TaskKey(r.path, r.key)] == i
  }

  ghost predicate EntryOk<I>(q: Queue<I>, k: TaskKey)
    requires k in q.index
  {
    q.index[k] in q.records && TaskKey(q.records[q.index[k]].path, q.records[q.index[k]].key) == k
  }

  ghost predicate ItemsOk<I>(q: Queue<I>) {
    forall i {:trigger ItemOk(q, i)} :: i in q.records ==> ItemOk(q, i)
  }

  ghost predicate EntriesOk<I>(q: Queue<I>) {
    forall k {:trigger EntryOk(q, k)} :: k in q.index ==> EntryOk(q, k)
  }

  /** The two lists hold every task exactly once. */
  ghost predicate Partitioned<I>(q: Queue<I>) {
    multiset(q.pending) + multiset(q.active) == multiset(q.records.Keys)
  }

  ghost predicate Counted<I>(q: Queue<I>) {
    q.size == |q.pending| && q.running == |q.active| && q.size + q.running <= q.maxSize
  }

  ghost predicate WellFormed<I>(q: Queue<I>) {
    && |q.owners| == SLOTS && |q.epochs| == SLOTS
    && Counted(q) && Partitioned(q) && ItemsOk(q) && EntriesOk(q)
  }

  // ---- enqueue ----

  /** A duplicate refreshes the task, or asks for one replay when it is already running. */
  function Refreshed(r: Record, protection: Protection): Record {
    var r' := if r.running then r.(rerun := true, next := Some(protection)) else r.(protection := protection);
    r'.(retries := 0, retryAt := 0)
  }

  function Dedup<I>(q: Queue<I>, i: I, protection: Protection, slot: nat): Queue<I>
    requires i in q.records
  {
    q.(records := q.records[i := Refreshed(q.records[i], protection)],
       stats := Bump(q.stats, slot, q.records[i].path, Deduplicated, 1))
  }

  /** An accepted invalidation of a namespace is counted beside the task. */
  function Published<I>(q: Queue<I>, path: Bytes, slot: nat): Queue<I> {
    q.(stats := Bump(q.stats, slot, path, Invalidated, 1))
  }

  function NewRecord(k: TaskKey, purgeAll: bool, protection: Protection, now: nat): Record {
    Record(k.path, k.key, purgeAll, false, false, 0, 0, 0, now, 0, 0, protection, None)
  }

  function Admit<I>(q: Queue<I>, i: I, k: TaskKey, purgeAll: bool, protection: Protection, now: nat, slot: nat)
    : Queue<I>
  {
    q.(pending := q.pending + [i], size := q.size + 1,
       oldest := if q.pending == [] then now else q.oldest,
       index := q.index[k := i],
       records := q.records[i := NewRecord(k, purgeAll, protection, now)],
       stats := Bump(Bump(q.stats, slot, k.path, Enqueued, 1), slot, k.path, EnqueuedFull, Flag(purgeAll)))
  }

  /** An accepted purge joins the task of its key, or becomes the new task `i`. */
  function Accept<I>(q: Queue<I>, i: I, k: TaskKey, purgeAll: bool, protection: Protection, now: nat, slot: nat,
                     published: bool)
    : Queue<I>
    requires k in q.index ==> q.index[k] in q.records
  {
    var q' := if k in q.index then Dedup(q, q.index[k], protection, slot)
              else Admit(q, i, k, purgeAll, protection, now, slot);
    if published then Published(q', k.path, slot) else q'
  }

  // ---- take ----

  /** The index of the first ready task among the first `n`, or `n`. */
  function FirstReady<I>(pending: seq<I>, records: map<I, Record>, now: nat, n: nat): (k: nat)
    requires n <= |pending| && forall i :: i in pending ==> i in records
    ensures k <= n
    ensures k < n ==> Ready(records[pending[k]], now)
    ensures forall j :: 0 <= j < k ==> !Ready(records[pending[j]], now)
  {
    if n == 0 then 0
    else
      var k := FirstReady(pending, records, now, n - 1);
      if k < n - 1 || Ready(records[pending[n - 1]], now) then k else n
  }

  /** That index is determined by what it says about the tasks. */
  lemma {:induction false} FirstReadyIs<I>(pending: seq<I>, records: map<I, Record>, now: nat, n: nat, k: nat)
    requires n <= |pending| && forall i :: i in pending ==> i in records
    requires k <= n && (forall j :: 0 <= j < k ==> !Ready(records[pending[j]], now))
    requires k < n ==> Ready(records[pending[k]], now)
    ensures FirstReady(pending, records, now, n) == k
  {
    if n > 0 {
      FirstReadyIs(pending, records, now, n - 1, if k < n then k else n - 1);
    }
  }

  function ScanWindow<I>(q: Queue<I>): (n: nat)
    requires q.size == |q.pending|
    ensures n <= |q.pending|
  {
    if q.size < SCAN_LIMIT then q.size else SCAN_LIMIT
  }

  function RotatePending<I>(q: Queue<I>, k: nat): Queue<I>
    requires k <= |q.pending|
  {
    q.(pending := q.pending[k..] + q.pending[..k])
  }

  function Claimed(r: Record, pid: nat, slot: nat, epoch: nat): Record {
    r.(retryAt := 0, running := true, owner := pid, slot := slot, epoch := epoch)
  }

  /** The head of the pending list becomes active and belongs to the worker in `slot`. */
  function TakeHead<I>(q: Queue<I>, pid: nat, slot: nat): Queue<I>
    requires q.pending != [] && q.size > 0 && slot < |q.epochs|
    requires forall i :: i in q.pending ==> i in q.records
  {
    var i, rest := q.pending[0], q.pending[1..];
    var r := q.records[i];
    q.(pending := rest, active := q.active + [i], size := q.size - 1, running := q.running + 1,
       oldest := if rest != [] then q.records[rest[0]].enqueuedAt else q.oldest,
       records := q.records[i := Claimed(r, pid, slot, q.epochs[slot])],
       stats := Bump(Bump(q.stats, slot, r.path, Started, 1), slot, r.path, StartedFull, Flag(r.purgeAll)))
  }

  /** One pass over the pending list: scan for a ready task, rotate what was scanned, take what was found. */
  function Scan<I>(q: Queue<I>, now: nat): (k: nat)
    requires q.size == |q.pending| && forall i :: i in q.pending ==> i in q.records
    ensures k <= ScanWindow(q)
  {
    FirstReady(q.pending, q.records, now, ScanWindow(q))
  }

  // ---- completion, replay, recovery ----

  function Released(r: Record, now: nat): Record {
    r.(running := false, owner := 0, rerun := false, enqueuedAt := now, next := None,
       protection := if r.next.Some? then r.next.value else r.protection)
  }

  /** An active task goes back to the pending tail. */
  function GiveBack<I>(q: Queue<I>, i: I, now: nat, slot: nat): Queue<I>
    requires i in q.records && q.running > 0
  {
    var r := q.records[i];
    q.(pending := q.pending + [i], active := Without(q.active, i),
       size := q.size + 1, running := q.running - 1,
       oldest := if q.pending == [] then now else q.oldest,
       records := q.records[i := Released(r, now)],
       stats := Bump(Bump(Bump(q.stats, slot, r.path, Finished, 1), slot, r.path, Enqueued, 1),
                     slot, r.path, EnqueuedFull, Flag(r.purgeAll)))
  }

  /** An active task leaves the queue and the index. */
  function Retire<I>(q: Queue<I>, i: I, slot: nat): Queue<I>
    requires i in q.records && q.running > 0
  {
    var r := q.records[i];
    q.(active := Without(q.active, i), running := q.running - 1,
       index := q.index - {TaskKey(r.path, r.key)}, records := q.records - {i},
       stats := Bump(q.stats, slot, r.path, Finished, 1))
  }

  function RetryDelay(retries: nat): nat {
    if retries == 0 then 100 else if retries == 1 then 1000 else 10000
  }

  /** What the end of a pass decides for its task. */
  datatype Decision = Replay | Retry | Done | GiveUp

  function Decide(r: Record, complete: bool, errors: bool): Decision {
    if r.rerun || !complete then Replay
    else if errors && r.retries < 3 then Retry
    else if errors then GiveUp
    else Done
  }

  // What one walk of the task's cache path did.
  datatype Tally = Tally(deleted: nat, bytes: nat, deleteErrors: nat, scanErrors: nat) {
    predicate Errors() {
      scanErrors != 0 || deleteErrors != 0
    }
  }

  /** The walk's own counts, added when the pass ends. */
  function Report<I>(q: Queue<I>, path: Bytes, t: Tally, slot: nat): Queue<I> {
    q.(stats := Bump(Bump(Bump(Bump(q.stats, slot, path, Deleted, t.deleted), slot, path, DeleteErrors, t.deleteErrors),
                          slot, path, ScanErrors, t.scanErrors), slot, path, DeletedBytes, t.bytes))
  }

  /** The task waits 100 ms, 1 s and 10 s before its three retries. */
  function Delayed<I>(q: Queue<I>, i: I, now: nat, slot: nat): Queue<I>
    requires i in q.records
  {
    var r := q.records[i];
    q.(records := q.records[i := r.(retries := r.retries + 1, retryAt := (now + RetryDelay(r.retries)) % MSEC_MODULUS)],
       stats := Bump(q.stats, slot, r.path, Retried, 1))
  }

  /** The locked section at the end of process_queue. */
  function Finish<I>(q: Queue<I>, i: I, complete: bool, errors: bool, now: nat, slot: nat): Queue<I>
    requires i in q.records && q.running > 0
  {
    var r := q.records[i];
    match Decide(r, complete, errors)
    case Replay => GiveBack(q.(records := q.records[i := r.(retries := 0, retryAt := 0)]), i, now, slot)
    case Retry => GiveBack(Delayed(q, i, now, slot), i, now, slot)
    case Done => Retire(q, i, slot)
    case GiveUp => Retire(q.(stats := Bump(q.stats, slot, r.path, Exhausted, 1)), i, slot)
  }

  /** Whether recovery leaves the task with its owner; `alive` is what kill(pid, 0) reports. */
  predicate Owned(r: Record, owners: seq<nat>, epochs: seq<nat>, alive: set<nat>) {
    && r.slot < |owners| && r.slot < |epochs|
    && owners[r.slot] == r.owner && epochs[r.slot] == r.epoch && r.owner in alive
  }

  /** One turn of the recovery loop: the head of the active list is rotated or given back. */
  function RecoverHead<I>(q: Queue<I>, alive: set<nat>, now: nat, slot: nat): Queue<I>
    requires q.active != [] && q.active[0] in q.records && q.running > 0
  {
    var i := q.active[0];
    if Owned(q.records[i], q.owners, q.epochs, alive) then q.(active := q.active[1..] + [i])
    else GiveBack(q, i, now, slot)
  }

  // ---- worker slots ----

  /** A worker that enters a slot it did not hold before, or under another pid, begins a new epoch. */
  predicate Moves<I>(q: Queue<I>, slot: nat, pid: nat, previous: Option<nat>)
    requires slot < |q.owners|
  {
    previous != Some(slot) || q.owners[slot] != pid
  }

  function StartWorker<I>(q: Queue<I>, slot: nat, pid: nat, previous: Option<nat>): Queue<I>
    requires slot < |q.owners| && slot < |q.epochs|
  {
    q.(owners := q.owners[slot := pid],
       epochs := if Moves(q, slot, pid, previous) then q.epochs[slot := q.epochs[slot] + 1] else q.epochs)
  }

  function StopWorker<I>(q: Queue<I>, slot: nat): Queue<I>
    requires slot < |q.owners|
  {
    q.(owners := q.owners[slot := 0])
  }
}
