/**
 The status snapshot of the queue: it is taken without the zone lock's help from sums over all worker
 slots, and it is exact as long as no counter saturated.
 */
module QueueStatus {
  import opened Bytes
  import opened QueueState
  import opened QueueInvariants
  import opened QueueCounters
  import opened QueueProtocol
  import opened QueueRotation
  import CleanupQueue

  // ---- the balance holds in every reachable state ----

  lemma StepConserves<I>(s: Sys<I>, step: Step<I>, path: Bytes)
    requires Inv(s) && Guard(s, step) && Defined(s, step) && Conserved(s.q, path)
    ensures Conserved(Next(s, step).q, path)
  {
    match step
    case Enqueue(i, k, purgeAll, protection, now, slot, published) =>
      var q := if k in s.q.index then Dedup(s.q, s.q.index[k], protection, slot)
               else Admit(s.q, i, k, purgeAll, protection, now, slot);
      if k in s.q.index {
        DedupConserves(s.q, s.q.index[k], protection, slot, path);
      } else {
        AdmitConserves(s.q, i, k, purgeAll, protection, now, slot, path);
      }
      BumpKeeps(q, slot, k.path, Invalidated, 1, path);
    case Pick(pid, now) =>
      assert Seated(s, pid);
      var k := Scan(s.q, now);
      RotateKeeps(s.q, k);
      RotateConserves(s.q, k, path);
      if k != ScanWindow(s.q) {
        TakeConserves(RotatePending(s.q, k), pid, s.workers[pid].slot, path);
      }
    case End(pid, final, now) =>
      var w := s.workers[pid];
      var p := w.pass.value;
      assert Seated(s, pid) && ItemOk(s.q, p.item);
      var q := Report(s.q, s.q.records[p.item].path, p.tally, w.slot);
      StatsKeep(s.q, q.stats);
      ReportConserves(s.q, s.q.records[p.item].path, p.tally, w.slot, path);
      FinishConserves(q, p.item, p.complete, p.tally.Errors(), now, w.slot, path);
    case Sweep(alive, now, slot) =>
      RecoverConserves(s.q, RecoverLimit(s.q), alive, now, slot, path);
    case _ =>
  }

  lemma InitConserves<I>(s: Sys<I>, path: Bytes)
    requires Init(s)
    ensures Conserved(s.q, path)
  {
    forall m: Metric
      ensures Total(s.q.stats, path, m) == 0
    {
      EmptyTotal(path, m, SLOTS);
    }
    if s.q.pending != [] {
      ListedItem(s.q, s.q.pending[0]);
    }
    if s.q.active != [] {
      ListedItem(s.q, s.q.active[0]);
    }
  }

  /**
   In every reachable state, summed over the slots of all workers: enqueued minus started is the
   number of pending tasks of a path, started minus finished the number of active ones.
   */
  lemma {:induction false} CountersConserved<I>(states: seq<Sys<I>>, steps: seq<Step<I>>, j: nat, path: Bytes)
    requires Run(states, steps) && j < |states|
    ensures Conserved(states[j].q, path)
  {
    if j == 0 {
      InitConserves(states[0], path);
    } else {
      CountersConserved(states, steps, j - 1, path);
      RunKeeps(states, steps, j - 1);
      StepConserves(states[j - 1], steps[j - 1], path);
    }
  }

  // ---- the snapshot ----

  datatype Status = Status(
    size: nat, running: nat, maxSize: nat, full: bool, waitTime: nat,
    pending: nat, pendingFull: nat, active: nat,
    deleted: nat, deduplicated: nat, errors: nat, bytes: nat,
    invalidated: nat, scanErrors: nat, retried: nat, exhausted: nat)

  /** How long ago `since` was, on a clock that wraps; a time in the future counts as now. */
  function Age(now: nat, since: nat): nat {
    var d := (now - since) % MSEC_MODULUS;
    if d < MSEC_MODULUS / 2 then d else 0
  }

  /** The age of a moment in the past is the time since then. */
  lemma AgeOfThePast(since: nat, elapsed: nat)
    requires since < MSEC_MODULUS && elapsed < MSEC_MODULUS / 2
    ensures Age((since + elapsed) % MSEC_MODULUS, since) == elapsed
  {
    WrapsTo(since + elapsed);
    SmallModulus((since + elapsed) % MSEC_MODULUS - since, elapsed);
  }

  function Least(a: nat, b: nat): (r: nat)
    ensures r <= a && r <= b && (r == a || r == b)
  {
    if a < b then a else b
  }

  /** Adding up with saturation gives the sum, cut off at the maximum. */
  method AddUp(stats: map<Counter, nat>, path: Bytes, metric: Metric) returns (sum: nat)
    ensures sum == Least(Total(stats, path, metric), UINT64_MAX)
  {
    sum := 0;
    for slot := 0 to SLOTS
      invariant sum == Least(Sum(stats, path, metric, slot), UINT64_MAX)
    {
      sum := sum + Least(Value(stats, slot, path, metric), UINT64_MAX - sum);
    }
  }

  ghost function Capped(stats: map<Counter, nat>, path: Bytes, metric: Metric): nat {
    Least(Total(stats, path, metric), UINT64_MAX)
  }

  /** What the snapshot shows for a queue and one of its paths. */
  ghost function Shown<I>(q: Queue<I>, path: Bytes, now: nat): Status {
    var enqueued, started := Capped(q.stats, path, Enqueued), Capped(q.stats, path, Started);
    var enqueuedFull, startedFull := Capped(q.stats, path, EnqueuedFull), Capped(q.stats, path, StartedFull);
    var finished := Capped(q.stats, path, Finished);
    Status(
      q.size, q.running, q.maxSize, q.size + q.running >= q.maxSize, if q.size == 0 then 0 else Age(now, q.oldest),
      enqueued - Least(started, enqueued), enqueuedFull - Least(startedFull, enqueuedFull),
      started - Least(finished, started),
      Capped(q.stats, path, Deleted), Capped(q.stats, path, Deduplicated), Capped(q.stats, path, DeleteErrors),
      Capped(q.stats, path, DeletedBytes), Capped(q.stats, path, Invalidated), Capped(q.stats, path, ScanErrors),
      Capped(q.stats, path, Retried), Capped(q.stats, path, Exhausted))
  }

  method Snapshot(queue: CleanupQueue.CleanupQueue, path: Bytes, now: nat) returns (snap: Status)
    requires queue.Valid()
    ensures snap == Shown(queue.abs, path, now)
  {
    var enqueued := AddUp(queue.stats, path, Enqueued);
    var started := AddUp(queue.stats, path, Started);
    var enqueuedFull := AddUp(queue.stats, path, EnqueuedFull);
    var startedFull := AddUp(queue.stats, path, StartedFull);
    var finished := AddUp(queue.stats, path, Finished);
    var deleted := AddUp(queue.stats, path, Deleted);
    var deduplicated := AddUp(queue.stats, path, Deduplicated);
    var errors := AddUp(queue.stats, path, DeleteErrors);
    var bytes := AddUp(queue.stats, path, DeletedBytes);
    var invalidated := AddUp(queue.stats, path, Invalidated);
    var scanErrors := AddUp(queue.stats, path, ScanErrors);
    var retried := AddUp(queue.stats, path, Retried);
    var exhausted := AddUp(queue.stats, path, Exhausted);
    snap := Status(
      queue.size, queue.running, queue.maxSize, queue.size + queue.running >= queue.maxSize,
      if queue.size == 0 then 0 else Age(now, queue.oldest),
      enqueued - Least(started, enqueued), enqueuedFull - Least(startedFull, enqueuedFull),
      started - Least(finished, started),
      deleted, deduplicated, errors, bytes, invalidated, scanErrors, retried, exhausted);
  }

  /** The snapshot is exact in every reachable state whose counters and their sums have not saturated. */
  lemma SnapshotIsExact<I>(states: seq<Sys<I>>, steps: seq<Step<I>>, j: nat, path: Bytes, now: nat)
    requires Run(states, steps) && j < |states| && Unsaturated(states[j].q.stats)
    requires forall m :: m in {Enqueued, Started, EnqueuedFull, StartedFull, Finished} ==>
             Total(states[j].q.stats, path, m) <= UINT64_MAX
    ensures var q, snap := states[j].q, Shown(states[j].q, path, now);
      && snap.size == |q.pending| && snap.running == |q.active|
      && snap.pending == Count(q.pending, q.records, path, false)
      && snap.pendingFull == Count(q.pending, q.records, path, true)
      && snap.active == Count(q.active, q.records, path, false)
      && snap.waitTime == (if q.pending == [] then 0 else Age(now, q.oldest))
      && snap.maxSize == q.maxSize && (snap.full <==> |q.pending| + |q.active| == q.maxSize)
  {
    RunKeeps(states, steps, j);
    CountersConserved(states, steps, j, path);
  }
}
