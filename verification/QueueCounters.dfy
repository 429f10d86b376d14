/**
 What the per-worker counters add up to. A task may be enqueued, started and finished by different
 workers, each counting in its own slot; summed over all slots the counters still give the number of
 pending and active tasks of a path, as long as no counter has saturated.
 */
module QueueCounters {
  import opened Bytes
  import opened QueueState
  import opened QueueInvariants

  /** The sum of a counter over the first `n` slots. */
  function Sum(stats: map<Counter, nat>, path: Bytes, metric: Metric, n: nat): nat {
    if n == 0 then 0 else Sum(stats, path, metric, n - 1) + Value(stats, n - 1, path, metric)
  }

  function Total(stats: map<Counter, nat>, path: Bytes, metric: Metric): nat {
    Sum(stats, path, metric, SLOTS)
  }

  lemma {:induction false} EmptyTotal(path: Bytes, metric: Metric, n: nat)
    ensures Sum(map[], path, metric, n) == 0
  {
    if n != 0 {
      EmptyTotal(path, metric, n - 1);
    }
  }

  /** No counter has reached the value at which it stops counting. */
  ghost predicate Unsaturated(stats: map<Counter, nat>) {
    forall c {:trigger stats[c]} :: c in stats ==> stats[c] < UINT64_MAX
  }

  /** A counter never falls, so a history without saturation shows in the present values. */
  lemma BumpBack(stats: map<Counter, nat>, slot: nat, path: Bytes, metric: Metric, v: nat)
    requires Unsaturated(Bump(stats, slot, path, metric, v))
    ensures Unsaturated(stats) && Value(stats, slot, path, metric) + v < UINT64_MAX
  {
    var after := Bump(stats, slot, path, metric, v);
    assert after[Counter(slot, path, metric)] < UINT64_MAX;
    forall c | c in stats
      ensures stats[c] < UINT64_MAX
    {
      assert after[c] < UINT64_MAX;
    }
  }

  /** Counting in a slot touches that one counter, which never wraps and never falls. */
  lemma BumpSaturates(stats: map<Counter, nat>, slot: nat, path: Bytes, metric: Metric, v: nat, c: Counter)
    requires Value(stats, slot, path, metric) <= UINT64_MAX
    ensures var was := Value(stats, c.slot, c.path, c.metric);
      var now := Value(Bump(stats, slot, path, metric, v), c.slot, c.path, c.metric);
      if c != Counter(slot, path, metric) then now == was
      else was <= now <= UINT64_MAX && now <= was + v && (now == was + v || now == UINT64_MAX)
  {
  }

  lemma {:induction false} SumBump(stats: map<Counter, nat>, slot: nat, path: Bytes, metric: Metric, v: nat,
                                   p: Bytes, m: Metric, n: nat)
    requires Value(stats, slot, path, metric) + v <= UINT64_MAX
    ensures Sum(Bump(stats, slot, path, metric, v), p, m, n) ==
            Sum(stats, p, m, n) + (if slot < n && p == path && m == metric then v else 0)
  {
    if n != 0 {
      SumBump(stats, slot, path, metric, v, p, m, n - 1);
    }
  }

  lemma TotalBump(stats: map<Counter, nat>, slot: nat, path: Bytes, metric: Metric, v: nat, p: Bytes, m: Metric)
    requires slot < SLOTS && Unsaturated(Bump(stats, slot, path, metric, v))
    ensures Unsaturated(stats)
    ensures Total(Bump(stats, slot, path, metric, v), p, m) ==
            Total(stats, p, m) + (if p == path && m == metric then v else 0)
  {
    BumpBack(stats, slot, path, metric, v);
    SumBump(stats, slot, path, metric, v, p, m, SLOTS);
  }

  // ---- counting tasks ----

  predicate Matches(r: Record, path: Bytes, full: bool) {
    r.path == path && (full ==> r.purgeAll)
  }

  /** How many tasks of `s` belong to the path (and purge all of it, when `full`). */
  function Count<I>(s: seq<I>, records: map<I, Record>, path: Bytes, full: bool): nat {
    if s == [] then 0
    else Count(s[..|s| - 1], records, path, full)
         + (if s[|s| - 1] in records then Flag(Matches(records[s[|s| - 1]], path, full)) else 0)
  }

  lemma {:induction false} CountAppend<I>(s: seq<I>, t: seq<I>, records: map<I, Record>, path: Bytes, full: bool)
    ensures Count(s + t, records, path, full) == Count(s, records, path, full) + Count(t, records, path, full)
  {
    if t == [] {
      assert s + t == s;
    } else {
      CountAppend(s, t[..|t| - 1], records, path, full);
      assert (s + t)[..|s + t| - 1] == s + t[..|t| - 1];
    }
  }

  lemma CountOne<I>(i: I, records: map<I, Record>, path: Bytes, full: bool)
    requires i in records
    ensures Count([i], records, path, full) == Flag(Matches(records[i], path, full))
  {
    assert [i][..0] == [];
  }

  lemma {:induction false} CountWithout<I>(s: seq<I>, i: I, records: map<I, Record>, path: Bytes, full: bool)
    requires i in s && i in records
    ensures Count(s, records, path, full) ==
            Count(Without(s, i), records, path, full) + Flag(Matches(records[i], path, full))
  {
    CountAppend([s[0]], s[1..], records, path, full);
    assert s == [s[0]] + s[1..];
    CountOne(i, records, path, full);
    if s[0] != i {
      CountWithout(s[1..], i, records, path, full);
      CountAppend([s[0]], Without(s[1..], i), records, path, full);
    }
  }

  /** Counting looks at the path and the kind of a task only. */
  lemma {:induction false} CountSame<I>(s: seq<I>, records: map<I, Record>, records': map<I, Record>, path: Bytes,
                                        full: bool)
    requires forall i :: i in s ==> i in records && i in records'
    requires forall i :: i in s ==> records[i].path == records'[i].path && records[i].purgeAll == records'[i].purgeAll
    ensures Count(s, records, path, full) == Count(s, records', path, full)
  {
    if s != [] {
      CountSame(s[..|s| - 1], records, records', path, full);
    }
  }

  // ---- conservation ----

  /** For one path: enqueued minus started is pending, started minus finished is active. */
  ghost predicate Balanced<I>(q: Queue<I>, path: Bytes) {
    && Total(q.stats, path, Enqueued) == Total(q.stats, path, Started) + Count(q.pending, q.records, path, false)
    && Total(q.stats, path, Started) == Total(q.stats, path, Finished) + Count(q.active, q.records, path, false)
    && Total(q.stats, path, EnqueuedFull) == Total(q.stats, path, StartedFull) + Count(q.pending, q.records, path, true)
  }

  ghost predicate Conserved<I>(q: Queue<I>, path: Bytes) {
    Unsaturated(q.stats) ==> Balanced(q, path)
  }

  /** Counters outside the balance leave it alone. */
  lemma BumpKeeps<I>(q: Queue<I>, slot: nat, p: Bytes, metric: Metric, v: nat, path: Bytes)
    requires Conserved(q, path) && slot < SLOTS
    requires metric !in {Enqueued, EnqueuedFull, Started, StartedFull, Finished}
    ensures Conserved(q.(stats := Bump(q.stats, slot, p, metric, v)), path)
  {
    var q' := q.(stats := Bump(q.stats, slot, p, metric, v));
    if Unsaturated(q'.stats) {
      forall m | m in {Enqueued, EnqueuedFull, Started, StartedFull, Finished}
        ensures Total(q'.stats, path, m) == Total(q.stats, path, m)
      {
        TotalBump(q.stats, slot, p, metric, v, path, m);
      }
      TotalBump(q.stats, slot, p, metric, v, path, Enqueued);
    }
  }

  lemma ReportConserves<I>(q: Queue<I>, p: Bytes, t: Tally, slot: nat, path: Bytes)
    requires Conserved(q, path) && slot < SLOTS
    ensures Conserved(Report(q, p, t, slot), path)
  {
    var a := q.(stats := Bump(q.stats, slot, p, Deleted, t.deleted));
    var b := a.(stats := Bump(a.stats, slot, p, DeleteErrors, t.deleteErrors));
    var c := b.(stats := Bump(b.stats, slot, p, ScanErrors, t.scanErrors));
    BumpKeeps(q, slot, p, Deleted, t.deleted, path);
    BumpKeeps(a, slot, p, DeleteErrors, t.deleteErrors, path);
    BumpKeeps(b, slot, p, ScanErrors, t.scanErrors, path);
    BumpKeeps(c, slot, p, DeletedBytes, t.bytes, path);
  }

  /** Rewriting records without touching paths and kinds, and reordering the lists, keeps the balance. */
  lemma ShapeConserves<I>(q: Queue<I>, q': Queue<I>, path: Bytes)
    requires Conserved(q, path) && q'.stats == q.stats && WellFormed(q)
    requires q'.records.Keys == q.records.Keys
    requires forall i :: i in q.records ==>
             q'.records[i].path == q.records[i].path && q'.records[i].purgeAll == q.records[i].purgeAll
    requires forall full :: Count(q'.pending, q.records, path, full) == Count(q.pending, q.records, path, full)
    requires forall full :: Count(q'.active, q.records, path, full) == Count(q.active, q.records, path, full)
    requires (forall i :: i in q'.pending ==> i in q.records) && (forall i :: i in q'.active ==> i in q.records)
    ensures Conserved(q', path)
  {
    CountSame(q'.pending, q.records, q'.records, path, false);
    CountSame(q'.pending, q.records, q'.records, path, true);
    CountSame(q'.active, q.records, q'.records, path, false);
  }

  lemma RotateConserves<I>(q: Queue<I>, k: nat, path: Bytes)
    requires WellFormed(q) && Conserved(q, path) && k <= |q.pending|
    ensures Conserved(RotatePending(q, k), path)
  {
    PendingRecorded(q);
    forall full
      ensures Count(q.pending[k..] + q.pending[..k], q.records, path, full) == Count(q.pending, q.records, path, full)
    {
      CountAppend(q.pending[..k], q.pending[k..], q.records, path, full);
      CountAppend(q.pending[k..], q.pending[..k], q.records, path, full);
      assert q.pending == q.pending[..k] + q.pending[k..];
    }
    ShapeConserves(q, RotatePending(q, k), path);
  }

  lemma TotalBumps(stats: map<Counter, nat>, slot: nat, p: Bytes, m1: Metric, v1: nat, m2: Metric, v2: nat,
                   path: Bytes, m: Metric)
    requires slot < SLOTS && Unsaturated(Bump(Bump(stats, slot, p, m1, v1), slot, p, m2, v2))
    ensures Unsaturated(stats)
    ensures Total(Bump(Bump(stats, slot, p, m1, v1), slot, p, m2, v2), path, m) ==
            Total(stats, path, m) + (if p == path && m == m1 then v1 else 0) + (if p == path && m == m2 then v2 else 0)
  {
    TotalBump(Bump(stats, slot, p, m1, v1), slot, p, m2, v2, path, m);
    TotalBump(stats, slot, p, m1, v1, path, m);
  }

  lemma DedupConserves<I>(q: Queue<I>, i: I, protection: Protection, slot: nat, path: Bytes)
    requires WellFormed(q) && Conserved(q, path) && i in q.records && slot < SLOTS
    ensures Conserved(Dedup(q, i, protection, slot), path)
  {
    PendingRecorded(q);
    var a := q.(records := q.records[i := Refreshed(q.records[i], protection)]);
    ShapeConserves(q, a, path);
    BumpKeeps(a, slot, q.records[i].path, Deduplicated, 1, path);
  }

  lemma AdmitCounts<I>(q: Queue<I>, i: I, r: Record, path: Bytes, full: bool)
    requires WellFormed(q) && i !in q.records
    ensures Count(q.pending + [i], q.records[i := r], path, full) ==
            Count(q.pending, q.records, path, full) + Flag(Matches(r, path, full))
    ensures Count(q.active, q.records[i := r], path, full) == Count(q.active, q.records, path, full)
  {
    PendingRecorded(q);
    CountAppend(q.pending, [i], q.records[i := r], path, full);
    CountOne(i, q.records[i := r], path, full);
    CountSame(q.pending, q.records, q.records[i := r], path, full);
    CountSame(q.active, q.records, q.records[i := r], path, full);
  }

  lemma AdmitConserves<I>(q: Queue<I>, i: I, k: TaskKey, purgeAll: bool, protection: Protection, now: nat,
                          slot: nat, path: Bytes)
    requires WellFormed(q) && Conserved(q, path) && i !in q.records && slot < SLOTS
    ensures Conserved(Admit(q, i, k, purgeAll, protection, now, slot), path)
  {
    var q' := Admit(q, i, k, purgeAll, protection, now, slot);
    if Unsaturated(q'.stats) {
      forall m: Metric
        ensures Unsaturated(q.stats) && Total(q'.stats, path, m) == Total(q.stats, path, m)
          + (if k.path == path && m == Enqueued then 1 else 0)
          + (if k.path == path && m == EnqueuedFull then Flag(purgeAll) else 0)
      {
        TotalBumps(q.stats, slot, k.path, Enqueued, 1, EnqueuedFull, Flag(purgeAll), path, m);
      }
      AdmitCounts(q, i, q'.records[i], path, false);
      AdmitCounts(q, i, q'.records[i], path, true);
    }
  }

  lemma TakeCounts<I>(q: Queue<I>, r: Record, path: Bytes, full: bool)
    requires WellFormed(q) && q.pending != [] && q.pending[0] in q.records
    requires r.path == q.records[q.pending[0]].path && r.purgeAll == q.records[q.pending[0]].purgeAll
    ensures var i := q.pending[0]; var records := q.records[i := r];
      && Count(q.pending, q.records, path, full) ==
         Count(q.pending[1..], records, path, full) + Flag(Matches(r, path, full))
      && Count(q.active + [i], records, path, full) ==
         Count(q.active, q.records, path, full) + Flag(Matches(r, path, full))
  {
    PendingRecorded(q);
    var i := q.pending[0];
    var records := q.records[i := r];
    assert q.pending == [i] + q.pending[1..];
    CountAppend([i], q.pending[1..], q.records, path, full);
    CountOne(i, q.records, path, full);
    CountSame(q.pending[1..], q.records, records, path, full);
    CountAppend(q.active, [i], records, path, full);
    CountOne(i, records, path, full);
    CountSame(q.active, q.records, records, path, full);
  }

  lemma TakeConserves<I>(q: Queue<I>, pid: nat, slot: nat, path: Bytes)
    requires WellFormed(q) && Conserved(q, path) && q.pending != [] && slot < SLOTS
    ensures TakeHead.requires(q, pid, slot) && Conserved(TakeHead(q, pid, slot), path)
  {
    TakeKeeps(q, pid, slot);
    PendingRecorded(q);
    var q', i := TakeHead(q, pid, slot), q.pending[0];
    var r := q.records[i];
    if Unsaturated(q'.stats) {
      forall m: Metric
        ensures Unsaturated(q.stats) && Total(q'.stats, path, m) == Total(q.stats, path, m)
          + (if r.path == path && m == Started then 1 else 0)
          + (if r.path == path && m == StartedFull then Flag(r.purgeAll) else 0)
      {
        TotalBumps(q.stats, slot, r.path, Started, 1, StartedFull, Flag(r.purgeAll), path, m);
      }
      TakeCounts(q, q'.records[i], path, false);
      TakeCounts(q, q'.records[i], path, true);
    }
  }

  lemma GiveBackCounts<I>(q: Queue<I>, i: I, r: Record, path: Bytes, full: bool)
    requires WellFormed(q) && i in q.active && i in q.records
    requires r.path == q.records[i].path && r.purgeAll == q.records[i].purgeAll
    ensures var records := q.records[i := r];
      && Count(q.pending + [i], records, path, full) ==
         Count(q.pending, q.records, path, full) + Flag(Matches(r, path, full))
      && Count(q.active, q.records, path, full) ==
         Count(Without(q.active, i), records, path, full) + Flag(Matches(r, path, full))
  {
    PendingRecorded(q);
    var records := q.records[i := r];
    CountAppend(q.pending, [i], records, path, full);
    CountOne(i, records, path, full);
    CountSame(q.pending, q.records, records, path, full);
    CountWithout(q.active, i, records, path, full);
    CountSame(q.active, q.records, records, path, full);
  }

  lemma GiveBackConserves<I>(q: Queue<I>, i: I, now: nat, slot: nat, path: Bytes)
    requires WellFormed(q) && Conserved(q, path) && i in q.active && slot < SLOTS
    ensures GiveBack.requires(q, i, now, slot) && Conserved(GiveBack(q, i, now, slot), path)
  {
    GiveBackKeeps(q, i, now, slot);
    var q', r := GiveBack(q, i, now, slot), q.records[i];
    if Unsaturated(q'.stats) {
      var mid := Bump(q.stats, slot, r.path, Finished, 1);
      forall m: Metric
        ensures Unsaturated(q.stats) && Total(q'.stats, path, m) == Total(q.stats, path, m)
          + (if r.path == path && m == Finished then 1 else 0)
          + (if r.path == path && m == Enqueued then 1 else 0)
          + (if r.path == path && m == EnqueuedFull then Flag(r.purgeAll) else 0)
      {
        TotalBumps(mid, slot, r.path, Enqueued, 1, EnqueuedFull, Flag(r.purgeAll), path, m);
        TotalBump(q.stats, slot, r.path, Finished, 1, path, m);
      }
      GiveBackCounts(q, i, q'.records[i], path, false);
      GiveBackCounts(q, i, q'.records[i], path, true);
    }
  }

  lemma RetireConserves<I>(q: Queue<I>, i: I, slot: nat, path: Bytes)
    requires WellFormed(q) && Conserved(q, path) && i in q.active && slot < SLOTS
    ensures Retire.requires(q, i, slot) && Conserved(Retire(q, i, slot), path)
  {
    RetireKeeps(q, i, slot);
    PendingRecorded(q);
    var q', r := Retire(q, i, slot), q.records[i];
    PendingRecorded(q');
    if Unsaturated(q'.stats) {
      forall m: Metric
        ensures Unsaturated(q.stats)
        ensures Total(q'.stats, path, m) == Total(q.stats, path, m) + (if r.path == path && m == Finished then 1 else 0)
      {
        TotalBump(q.stats, slot, r.path, Finished, 1, path, m);
      }
      CountWithout(q.active, i, q.records, path, false);
      CountSame(q'.active, q.records, q'.records, path, false);
      CountSame(q.pending, q.records, q'.records, path, false);
      CountSame(q.pending, q.records, q'.records, path, true);
    }
  }

  lemma FinishConserves<I>(q: Queue<I>, i: I, complete: bool, errors: bool, now: nat, slot: nat, path: Bytes)
    requires WellFormed(q) && Conserved(q, path) && i in q.active && slot < SLOTS
    ensures Finish.requires(q, i, complete, errors, now, slot)
            && Conserved(Finish(q, i, complete, errors, now, slot), path)
  {
    ListedItem(q, i);
    PendingRecorded(q);
    var r := q.records[i];
    match Decide(r, complete, errors)
    case Replay =>
      assert ItemOk(q, i);
      var a := q.(records := q.records[i := r.(retries := 0, retryAt := 0)]);
      RewriteKeeps(q, i, r.(retries := 0, retryAt := 0), q.stats);
      ShapeConserves(q, a, path);
      GiveBackConserves(a, i, now, slot, path);
    case Retry =>
      var r' := Delayed(q, i, now, slot).records[i];
      var a := q.(records := q.records[i := r']);
      ShapeConserves(q, a, path);
      BumpKeeps(a, slot, r.path, Retried, 1, path);
      assert ItemOk(q, i);
      RewriteKeeps(q, i, r', Bump(q.stats, slot, r.path, Retried, 1));
      GiveBackConserves(Delayed(q, i, now, slot), i, now, slot, path);
    case Done => RetireConserves(q, i, slot, path);
    case GiveUp =>
      BumpKeeps(q, slot, r.path, Exhausted, 1, path);
      StatsKeep(q, Bump(q.stats, slot, r.path, Exhausted, 1));
      RetireConserves(q.(stats := Bump(q.stats, slot, r.path, Exhausted, 1)), i, slot, path);
  }

  lemma {:induction false} RecoverConserves<I>(q: Queue<I>, n: nat, alive: set<nat>, now: nat, slot: nat, path: Bytes)
    requires WellFormed(q) && Conserved(q, path) && n <= q.running && slot < SLOTS
    ensures Conserved(Recover(q, n, alive, now, slot), path)
    decreases n
  {
    if n != 0 {
      RecoverKeeps(q, alive, now, slot);
      RecoverTurnConserves(q, alive, now, slot, path);
      RecoverConserves(RecoverHead(q, alive, now, slot), n - 1, alive, now, slot, path);
    }
  }

  lemma RecoverTurnConserves<I>(q: Queue<I>, alive: set<nat>, now: nat, slot: nat, path: Bytes)
    requires WellFormed(q) && Conserved(q, path) && q.active != [] && slot < SLOTS
    ensures RecoverHead.requires(q, alive, now, slot) && Conserved(RecoverHead(q, alive, now, slot), path)
  {
    PendingRecorded(q);
    RecoverKeeps(q, alive, now, slot);
    var i := q.active[0];
    if Owned(q.records[i], q.owners, q.epochs, alive) {
      forall full
        ensures Count(q.active[1..] + [i], q.records, path, full) == Count(q.active, q.records, path, full)
      {
        CountAppend([i], q.active[1..], q.records, path, full);
        CountAppend(q.active[1..], [i], q.records, path, full);
        assert q.active == [i] + q.active[1..];
      }
      ShapeConserves(q, RecoverHead(q, alive, now, slot), path);
    } else {
      GiveBackConserves(q, i, now, slot, path);
    }
  }
}
