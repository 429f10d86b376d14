/**
 Delayed retries wait in the pending list itself: a scan rotates up to 64 of them past the head and
 takes the first ready task. This module says how long a ready task can wait behind delayed ones,
 and what the rotation does to the age the status reports.
 */
module QueueRotation {
  import opened Bytes
  import opened QueueState
  import opened QueueInvariants
  import opened QueueProtocol

  /** The queue after `m` scans that found nothing ready. */
  ghost function AfterScans<I>(q: Queue<I>, m: nat): (q': Queue<I>)
    requires q.size == |q.pending|
    ensures q'.size == |q'.pending| == |q.pending| && q' == q.(pending := q'.pending)
  {
    if m == 0 then q
    else RotatePending(AfterScans(q, m - 1), ScanWindow(AfterScans(q, m - 1)))
  }

  lemma RotatedFurther<T>(s: seq<T>, a: nat, b: nat)
    requires a <= b <= |s|
    ensures var p := s[a..] + s[..a]; p[b - a..] + p[..b - a] == s[b..] + s[..b]
  {
    var p := s[a..] + s[..a];
    assert p[b - a..] == s[b..] + s[..a] && p[..b - a] == s[a..b];
    assert s[..b] == s[..a] + s[a..b];
  }

  lemma {:induction false} AfterScansRotates<I>(q: Queue<I>, m: nat)
    requires q.size == |q.pending| && SCAN_LIMIT * m < |q.pending|
    ensures AfterScans(q, m).pending == q.pending[SCAN_LIMIT * m..] + q.pending[..SCAN_LIMIT * m]
  {
    var s := q.pending;
    if m == 0 {
      assert s == s[0..] + s[..0];
    } else {
      AfterScansRotates(q, m - 1);
      RotatedFurther(s, SCAN_LIMIT * (m - 1), SCAN_LIMIT * m);
      assert ScanWindow(AfterScans(q, m - 1)) == SCAN_LIMIT * m - SCAN_LIMIT * (m - 1);
    }
  }

  lemma RotatedIndex<T>(s: seq<T>, a: nat)
    requires a <= |s|
    ensures forall i :: 0 <= i < |s| - a ==> (s[a..] + s[..a])[i] == s[a + i]
    ensures forall x :: x in s[a..] + s[..a] ==> x in s
  {
  }

  ghost predicate FirstReadyAt<I>(q: Queue<I>, now: nat, j: nat) {
    && j < |q.pending| && (forall i :: i in q.pending ==> i in q.records)
    && Ready(q.records[q.pending[j]], now)
    && forall i :: 0 <= i < j ==> !Ready(q.records[q.pending[i]], now)
  }

  /**
   With a fixed clock and nothing else happening, the first ready task, at position `j`, is taken by
   scan number `j / 64 + 1`, and every scan before that one rotates 64 delayed tasks out of its way.
   */
  lemma ReadyTaskIsReached<I>(q: Queue<I>, now: nat, j: nat, m: nat)
    requires WellFormed(q) && FirstReadyAt(q, now, j) && m <= j / SCAN_LIMIT
    ensures var p := AfterScans(q, m);
      && (forall i :: i in p.pending ==> i in p.records)
      && (m < j / SCAN_LIMIT ==> Scan(p, now) == ScanWindow(p) == SCAN_LIMIT)
      && (m == j / SCAN_LIMIT ==> Scan(p, now) < ScanWindow(p) && p.pending[Scan(p, now)] == q.pending[j])
  {
    var p, s, a := AfterScans(q, m), q.pending, SCAN_LIMIT * m;
    AfterScansRotates(q, m);
    RotatedIndex(s, a);
    var n := ScanWindow(p);
    FirstReadyIs(p.pending, p.records, now, n, if m < j / SCAN_LIMIT then n else j - a);
  }

  /** Among `n` pending tasks a ready one is taken within `ceil(n / 64)` scans. */
  lemma ReachedWithin<I>(q: Queue<I>, now: nat, j: nat)
    requires WellFormed(q) && FirstReadyAt(q, now, j)
    ensures var m := j / SCAN_LIMIT;
      && m + 1 <= (|q.pending| + SCAN_LIMIT - 1) / SCAN_LIMIT
      && var p := AfterScans(q, m);
         (forall i :: i in p.pending ==> i in p.records)
         && Scan(p, now) < ScanWindow(p) && p.pending[Scan(p, now)] == q.pending[j]
  {
    ReadyTaskIsReached(q, now, j, j / SCAN_LIMIT);
  }

  // ---- the delay itself ----

  /**
   On the wrapping millisecond clock a delayed task is ready again exactly when its delay is over, provided
   the clock has moved by less than half its range; a wake-up time that happens to be 0 counts as no delay.
   */
  lemma RetryWaits<I>(q: Queue<I>, i: I, now: nat, slot: nat, elapsed: nat)
    requires i in q.records && now < MSEC_MODULUS && elapsed < MSEC_MODULUS / 2
    ensures var r := Delayed(q, i, now, slot).records[i]; var delay := RetryDelay(q.records[i].retries);
      Ready(r, (now + elapsed) % MSEC_MODULUS) <==> elapsed >= delay || (now + delay) % MSEC_MODULUS == 0
  {
    var delay := RetryDelay(q.records[i].retries);
    var at, later := (now + delay) % MSEC_MODULUS, (now + elapsed) % MSEC_MODULUS;
    WrapsTo(now + delay);
    WrapsTo(now + elapsed);
    if elapsed >= delay {
      SmallModulus(later - at, elapsed - delay);
    } else {
      SmallModulus(later - at, MSEC_MODULUS - (delay - elapsed));
    }
  }

  /**
   A complete pass without errors is a task's last. After one with errors the task is ready again 100 ms, 1 s and
   10 s later, and the fourth one in a row is its last.
   */
  lemma RetrySchedule<I>(q: Queue<I>, i: I, errors: bool, now: nat, slot: nat, elapsed: nat)
    requires i in q.records && q.running > 0 && !q.records[i].rerun && q.records[i].retries <= 3
    requires now < MSEC_MODULUS && elapsed < MSEC_MODULUS / 2
    ensures var n, q' := q.records[i].retries, Finish(q, i, true, errors, now, slot);
      if !errors || n == 3 then i !in q'.records
      else
        var delay := [100, 1000, 10000][n];
        && i in q'.records && !q'.records[i].running && q'.records[i].retries == n + 1
        && (QueueState.Ready(q'.records[i], (now + elapsed) % MSEC_MODULUS) <==>
              elapsed >= delay || (now + delay) % MSEC_MODULUS == 0)
  {
    if errors && q.records[i].retries < 3 {
      RetryWaits(q, i, now, slot, elapsed);
    }
  }

  lemma WrapsTo(t: nat)
    requires t < 2 * MSEC_MODULUS
    ensures t % MSEC_MODULUS == if t < MSEC_MODULUS then t else t - MSEC_MODULUS
  {
  }

  lemma SmallModulus(d: int, r: nat)
    requires r < MSEC_MODULUS && (d == r || d == r - MSEC_MODULUS)
    ensures d % MSEC_MODULUS == r
  {
  }

  // ---- the reported age ----

  /** `oldest` is when the pending head was enqueued. */
  ghost predicate HeadAge<I>(q: Queue<I>) {
    q.pending != [] ==> q.pending[0] in q.records && q.oldest == q.records[q.pending[0]].enqueuedAt
  }

  /** A fruitless scan of at most 64 tasks comes full circle; a longer list gets a new head and keeps the old age. */
  lemma FruitlessScanAge<I>(q: Queue<I>)
    requires WellFormed(q) && HeadAge(q)
    ensures HeadAge(RotatePending(q, ScanWindow(q))) <==>
            |q.pending| <= SCAN_LIMIT ||
            (q.pending[SCAN_LIMIT] in q.records && q.records[q.pending[SCAN_LIMIT]].enqueuedAt == q.oldest)
  {
    PendingRecorded(q);
    if |q.pending| <= SCAN_LIMIT {
      assert q.pending[|q.pending|..] + q.pending[..|q.pending|] == q.pending;
    }
  }

  lemma TakeSetsAge<I>(q: Queue<I>, k: nat, pid: nat, slot: nat)
    requires WellFormed(q) && k < |q.pending| && slot < SLOTS
    ensures TakeHead.requires(RotatePending(q, k), pid, slot) && HeadAge(TakeHead(RotatePending(q, k), pid, slot))
  {
    RotateKeeps(q, k);
    TakeKeeps(RotatePending(q, k), pid, slot);
    PendingRecorded(RotatePending(q, k));
  }

  lemma GiveBackKeepsAge<I>(q: Queue<I>, i: I, now: nat, slot: nat)
    requires WellFormed(q) && HeadAge(q) && i in q.active
    ensures GiveBack.requires(q, i, now, slot) && HeadAge(GiveBack(q, i, now, slot))
  {
    GiveBackKeeps(q, i, now, slot);
    ListedItem(q, i);
  }

  lemma FinishKeepsAge<I>(q: Queue<I>, i: I, complete: bool, errors: bool, now: nat, slot: nat)
    requires WellFormed(q) && HeadAge(q) && i in q.active
    ensures Finish.requires(q, i, complete, errors, now, slot) && HeadAge(Finish(q, i, complete, errors, now, slot))
  {
    ListedItem(q, i);
    assert ItemOk(q, i);
    var r := q.records[i];
    match Decide(r, complete, errors)
    case Replay =>
      RewriteKeeps(q, i, r.(retries := 0, retryAt := 0), q.stats);
      GiveBackKeepsAge(q.(records := q.records[i := r.(retries := 0, retryAt := 0)]), i, now, slot);
    case Retry =>
      RewriteKeeps(q, i, Delayed(q, i, now, slot).records[i], Delayed(q, i, now, slot).stats);
      GiveBackKeepsAge(Delayed(q, i, now, slot), i, now, slot);
    case _ =>
      if q.pending != [] {
        ListedItem(q, q.pending[0]);
      }
  }

  lemma {:induction false} RecoverKeepsAge<I>(q: Queue<I>, n: nat, alive: set<nat>, now: nat, slot: nat)
    requires WellFormed(q) && HeadAge(q) && n <= q.running
    ensures HeadAge(Recover(q, n, alive, now, slot))
    decreases n
  {
    if n != 0 {
      RecoverKeeps(q, alive, now, slot);
      ListedItem(q, q.active[0]);
      if !Owned(q.records[q.active[0]], q.owners, q.epochs, alive) {
        GiveBackKeepsAge(q, q.active[0], now, slot);
      }
      RecoverKeepsAge(RecoverHead(q, alive, now, slot), n - 1, alive, now, slot);
    }
  }

  /** Every step but a fruitless scan of more than 64 tasks keeps the reported age that of the pending head. */
  lemma StepKeepsAge<I>(s: Sys<I>, step: Step<I>)
    requires Inv(s) && Guard(s, step) && Defined(s, step) && HeadAge(s.q)
    requires step.Pick? ==> Scan(s.q, step.now) < ScanWindow(s.q) || |s.q.pending| <= SCAN_LIMIT
    ensures HeadAge(Next(s, step).q)
  {
    match step
    case Pick(pid, now) =>
      assert Seated(s, pid);
      FruitlessScanAge(s.q);
      if Scan(s.q, now) < ScanWindow(s.q) {
        TakeSetsAge(s.q, Scan(s.q, now), pid, s.workers[pid].slot);
      }
    case End(pid, final, now) =>
      var w := s.workers[pid];
      var p := w.pass.value;
      assert Seated(s, pid) && ItemOk(s.q, p.item);
      var q := Report(s.q, s.q.records[p.item].path, p.tally, w.slot);
      StatsKeep(s.q, q.stats);
      FinishKeepsAge(q, p.item, p.complete, p.tally.Errors(), now, w.slot);
    case Sweep(alive, now, slot) => RecoverKeepsAge(s.q, RecoverLimit(s.q), alive, now, slot);
    case _ =>
  }
}
