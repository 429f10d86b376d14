/**
 What the counters outside the balance of pending and active tasks stand for: each is the number of events, or the
 sum of what the walks reported, over the whole run, although every worker counts in its own slot.
 */
module QueueEvents {
  import opened Bytes
  import opened QueueState
  import opened QueueInvariants
  import opened QueueCounters
  import opened QueueProtocol
  import opened QueueStatus

  /** This step ends a pass over a task of the path. */
  ghost predicate EndsOn<I>(s: Sys<I>, step: Step<I>, path: Bytes) {
    && step.End? && step.pid in s.workers && s.workers[step.pid].pass.Some?
    && s.workers[step.pid].pass.value.item in s.q.records
    && s.q.records[s.workers[step.pid].pass.value.item].path == path
  }

  /** The pass ends with errors, complete, and with nothing accepted meanwhile. */
  ghost predicate Fails<I>(s: Sys<I>, step: Step<I>, path: Bytes) {
    && EndsOn(s, step, path) && !s.q.records[s.workers[step.pid].pass.value.item].rerun
    && s.workers[step.pid].pass.value.complete && s.workers[step.pid].pass.value.tally.Errors()
  }

  ghost function Retries<I>(s: Sys<I>, step: Step<I>, path: Bytes): nat
    requires EndsOn(s, step, path)
  {
    s.q.records[s.workers[step.pid].pass.value.item].retries
  }

  ghost function Reported<I>(s: Sys<I>, step: Step<I>, path: Bytes): Tally {
    if EndsOn(s, step, path) then s.workers[step.pid].pass.value.tally else Tally(0, 0, 0, 0)
  }

  /** What one step adds to a counter of the path. */
  ghost function Happens<I>(s: Sys<I>, step: Step<I>, path: Bytes, m: Metric): nat {
    match m
    case Deduplicated => Flag(step.Enqueue? && step.k.path == path && step.k in s.q.index)
    case Invalidated => Flag(step.Enqueue? && step.k.path == path && step.published)
    case Retried => if Fails(s, step, path) && Retries(s, step, path) < 3 then 1 else 0
    case Exhausted => if Fails(s, step, path) && Retries(s, step, path) >= 3 then 1 else 0
    case Deleted => Reported(s, step, path).deleted
    case DeletedBytes => Reported(s, step, path).bytes
    case DeleteErrors => Reported(s, step, path).deleteErrors
    case ScanErrors => Reported(s, step, path).scanErrors
    case _ => 0
  }

  predicate Simple(m: Metric) {
    m !in {Enqueued, EnqueuedFull, Started, StartedFull, Finished}
  }

  // ---- what each operation adds ----

  ghost predicate Adds(before: map<Counter, nat>, after: map<Counter, nat>, path: Bytes, m: Metric, v: nat) {
    Unsaturated(after) ==> Unsaturated(before) && Total(after, path, m) == Total(before, path, m) + v
  }

  lemma BumpAdds(stats: map<Counter, nat>, slot: nat, p: Bytes, metric: Metric, v: nat, path: Bytes, m: Metric)
    requires slot < SLOTS
    ensures Adds(stats, Bump(stats, slot, p, metric, v), path, m, if p == path && m == metric then v else 0)
  {
    if Unsaturated(Bump(stats, slot, p, metric, v)) {
      TotalBump(stats, slot, p, metric, v, path, m);
    }
  }

  lemma ReportAdds<I>(q: Queue<I>, p: Bytes, t: Tally, slot: nat, path: Bytes, m: Metric)
    requires slot < SLOTS
    ensures Adds(q.stats, Report(q, p, t, slot).stats, path, m,
                 if p != path then 0 else
                   match m case Deleted => t.deleted case DeletedBytes => t.bytes case DeleteErrors => t.deleteErrors
                           case ScanErrors => t.scanErrors case _ => 0)
  {
    var a := Bump(q.stats, slot, p, Deleted, t.deleted);
    var b := Bump(a, slot, p, DeleteErrors, t.deleteErrors);
    var c := Bump(b, slot, p, ScanErrors, t.scanErrors);
    BumpAdds(q.stats, slot, p, Deleted, t.deleted, path, m);
    BumpAdds(a, slot, p, DeleteErrors, t.deleteErrors, path, m);
    BumpAdds(b, slot, p, ScanErrors, t.scanErrors, path, m);
    BumpAdds(c, slot, p, DeletedBytes, t.bytes, path, m);
  }

  lemma GiveBackAdds<I>(q: Queue<I>, i: I, now: nat, slot: nat, path: Bytes, m: Metric)
    requires i in q.records && q.running > 0 && slot < SLOTS && Simple(m)
    ensures Adds(q.stats, GiveBack(q, i, now, slot).stats, path, m, 0)
  {
    var r := q.records[i];
    var a := Bump(q.stats, slot, r.path, Finished, 1);
    var b := Bump(a, slot, r.path, Enqueued, 1);
    BumpAdds(q.stats, slot, r.path, Finished, 1, path, m);
    BumpAdds(a, slot, r.path, Enqueued, 1, path, m);
    BumpAdds(b, slot, r.path, EnqueuedFull, Flag(r.purgeAll), path, m);
  }

  lemma RetryAdds<I>(q: Queue<I>, i: I, now: nat, slot: nat, path: Bytes, m: Metric)
    requires i in q.records && q.running > 0 && slot < SLOTS && Simple(m)
    ensures Adds(q.stats, GiveBack(Delayed(q, i, now, slot), i, now, slot).stats, path, m,
                 if q.records[i].path == path && m == Retried then 1 else 0)
  {
    BumpAdds(q.stats, slot, q.records[i].path, Retried, 1, path, m);
    GiveBackAdds(Delayed(q, i, now, slot), i, now, slot, path, m);
  }

  lemma FinishAdds<I>(q: Queue<I>, i: I, complete: bool, errors: bool, now: nat, slot: nat, path: Bytes, m: Metric)
    requires i in q.records && q.running > 0 && slot < SLOTS && Simple(m)
    ensures var r := q.records[i]; var fails := r.path == path && !r.rerun && complete && errors;
      Adds(q.stats, Finish(q, i, complete, errors, now, slot).stats, path, m,
           if m == Retried && fails && r.retries < 3 then 1
           else if m == Exhausted && fails && r.retries >= 3 then 1 else 0)
  {
    var r := q.records[i];
    match Decide(r, complete, errors)
    case Replay => GiveBackAdds(q.(records := q.records[i := r.(retries := 0, retryAt := 0)]), i, now, slot, path, m);
    case Retry => RetryAdds(q, i, now, slot, path, m);
    case Done => BumpAdds(q.stats, slot, r.path, Finished, 1, path, m);
    case GiveUp =>
      BumpAdds(q.stats, slot, r.path, Exhausted, 1, path, m);
      BumpAdds(Bump(q.stats, slot, r.path, Exhausted, 1), slot, r.path, Finished, 1, path, m);
  }

  lemma AcceptAdds<I>(q: Queue<I>, i: I, k: TaskKey, purgeAll: bool, protection: Protection, now: nat, slot: nat,
                      published: bool, path: Bytes, m: Metric)
    requires k in q.index ==> q.index[k] in q.records && q.records[q.index[k]].path == k.path
    requires slot < SLOTS && Simple(m)
    ensures Adds(q.stats, Accept(q, i, k, purgeAll, protection, now, slot, published).stats, path, m,
                 if m == Deduplicated then Flag(k.path == path && k in q.index)
                 else if m == Invalidated then Flag(k.path == path && published) else 0)
  {
    var joined := k in q.index;
    var q' := if joined then Dedup(q, q.index[k], protection, slot)
              else Admit(q, i, k, purgeAll, protection, now, slot);
    if joined {
      BumpAdds(q.stats, slot, k.path, Deduplicated, 1, path, m);
    } else {
      BumpAdds(q.stats, slot, k.path, Enqueued, 1, path, m);
      BumpAdds(Bump(q.stats, slot, k.path, Enqueued, 1), slot, k.path, EnqueuedFull, Flag(purgeAll), path, m);
    }
    BumpAdds(q'.stats, slot, k.path, Invalidated, 1, path, m);
  }

  lemma {:induction false} RecoverAdds<I>(q: Queue<I>, n: nat, alive: set<nat>, now: nat, slot: nat, path: Bytes,
                                          m: Metric)
    requires WellFormed(q) && n <= q.running && slot < SLOTS && Simple(m)
    ensures Adds(q.stats, Recover(q, n, alive, now, slot).stats, path, m, 0)
    decreases n
  {
    if n != 0 {
      RecoverKeeps(q, alive, now, slot);
      if !Owned(q.records[q.active[0]], q.owners, q.epochs, alive) {
        GiveBackAdds(q, q.active[0], now, slot, path, m);
      }
      RecoverAdds(RecoverHead(q, alive, now, slot), n - 1, alive, now, slot, path, m);
    }
  }

  lemma PickAdds<I>(s: Sys<I>, pid: nat, now: nat, path: Bytes, m: Metric)
    requires Inv(s) && Guard(s, Pick(pid, now)) && Defined(s, Pick(pid, now)) && Simple(m)
    ensures Adds(s.q.stats, Next(s, Pick(pid, now)).q.stats, path, m, 0)
  {
    var k, slot := Scan(s.q, now), s.workers[pid].slot;
    if k != ScanWindow(s.q) {
      var q := RotatePending(s.q, k);
      var r := q.records[q.pending[0]];
      BumpAdds(q.stats, slot, r.path, Started, 1, path, m);
      BumpAdds(Bump(q.stats, slot, r.path, Started, 1), slot, r.path, StartedFull, Flag(r.purgeAll), path, m);
    }
  }

  lemma EndAdds<I>(s: Sys<I>, pid: nat, final: bool, now: nat, path: Bytes, m: Metric)
    requires Inv(s) && Guard(s, End(pid, final, now)) && Defined(s, End(pid, final, now)) && Simple(m)
    ensures Adds(s.q.stats, Next(s, End(pid, final, now)).q.stats, path, m, Happens(s, End(pid, final, now), path, m))
  {
    var w := s.workers[pid];
    var p := w.pass.value;
    assert Seated(s, pid);
    var q := Report(s.q, s.q.records[p.item].path, p.tally, w.slot);
    ReportAdds(s.q, s.q.records[p.item].path, p.tally, w.slot, path, m);
    FinishAdds(q, p.item, p.complete, p.tally.Errors(), now, w.slot, path, m);
  }

  lemma StepAdds<I>(s: Sys<I>, step: Step<I>, path: Bytes, m: Metric)
    requires Inv(s) && Guard(s, step) && Defined(s, step) && Simple(m)
    ensures Adds(s.q.stats, Next(s, step).q.stats, path, m, Happens(s, step, path, m))
  {
    match step
    case Enqueue(i, k, purgeAll, protection, now, slot, published) =>
      assert k in s.q.index ==> EntryOk(s.q, k);
      AcceptAdds(s.q, i, k, purgeAll, protection, now, slot, published, path, m);
    case Pick(pid, now) =>
      assert Seated(s, pid);
      PickAdds(s, pid, now, path, m);
    case End(pid, final, now) => EndAdds(s, pid, final, now, path, m);
    case Sweep(alive, now, slot) => RecoverAdds(s.q, RecoverLimit(s.q), alive, now, slot, path, m);
    case _ =>
  }

  // ---- over whole runs ----

  /** What happened in the first `j` steps. */
  ghost function Happened<I>(states: seq<Sys<I>>, steps: seq<Step<I>>, j: nat, path: Bytes, m: Metric): nat
    requires |states| == |steps| + 1 && j < |states|
  {
    if j == 0 then 0
    else Happened(states, steps, j - 1, path, m) + Happens(states[j - 1], steps[j - 1], path, m)
  }

  /**
   In every reachable state without saturation, summed over the slots of all workers: the duplicates and the
   invalidations accepted for a path, its retried and its exhausted passes, and what its walks have deleted and
   failed to delete or to read.
   */
  lemma {:induction false} CountersTellWhatHappened<I>(states: seq<Sys<I>>, steps: seq<Step<I>>, j: nat, path: Bytes,
                                                       m: Metric)
    requires Run(states, steps) && j < |states| && Simple(m)
    ensures Unsaturated(states[j].q.stats) ==> Total(states[j].q.stats, path, m) == Happened(states, steps, j, path, m)
  {
    if j == 0 {
      EmptyTotal(path, m, SLOTS);
    } else {
      CountersTellWhatHappened(states, steps, j - 1, path, m);
      RunKeeps(states, steps, j - 1);
      StepAdds(states[j - 1], steps[j - 1], path, m);
    }
  }

  /** So the status shows what has happened, each number in its own field. */
  lemma StatusTellsWhatHappened<I>(states: seq<Sys<I>>, steps: seq<Step<I>>, j: nat, path: Bytes, now: nat)
    requires Run(states, steps) && j < |states| && Unsaturated(states[j].q.stats)
    requires forall m: Metric :: Total(states[j].q.stats, path, m) <= UINT64_MAX
    ensures var snap := Shown(states[j].q, path, now);
      && snap.deleted == Happened(states, steps, j, path, Deleted)
      && snap.bytes == Happened(states, steps, j, path, DeletedBytes)
      && snap.errors == Happened(states, steps, j, path, DeleteErrors)
      && snap.scanErrors == Happened(states, steps, j, path, ScanErrors)
      && snap.deduplicated == Happened(states, steps, j, path, Deduplicated)
      && snap.invalidated == Happened(states, steps, j, path, Invalidated)
      && snap.retried == Happened(states, steps, j, path, Retried)
      && snap.exhausted == Happened(states, steps, j, path, Exhausted)
  {
    FieldTells(states, steps, j, path, Deleted);
    FieldTells(states, steps, j, path, DeletedBytes);
    FieldTells(states, steps, j, path, DeleteErrors);
    FieldTells(states, steps, j, path, ScanErrors);
    FieldTells(states, steps, j, path, Deduplicated);
    FieldTells(states, steps, j, path, Invalidated);
    FieldTells(states, steps, j, path, Retried);
    FieldTells(states, steps, j, path, Exhausted);
  }

  lemma FieldTells<I>(states: seq<Sys<I>>, steps: seq<Step<I>>, j: nat, path: Bytes, m: Metric)
    requires Run(states, steps) && j < |states| && Unsaturated(states[j].q.stats) && Simple(m)
    requires Total(states[j].q.stats, path, m) <= UINT64_MAX
    ensures Capped(states[j].q.stats, path, m) == Happened(states, steps, j, path, m)
  {
    CountersTellWhatHappened(states, steps, j, path, m);
  }
}
