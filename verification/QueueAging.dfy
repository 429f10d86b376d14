/**
 A run in which the age that the status reports is lost: 64 tasks wait for their first retry, one more is
 admitted behind them, and a worker scans the list in vain.
 */
module QueueAging {
  import opened Bytes
  import opened QueueState
  import opened QueueInvariants
  import opened QueueProtocol
  import opened QueueRotation

  ghost predicate Reachable(s: Sys<nat>) {
    exists states: seq<Sys<nat>>, steps: seq<Step<nat>> :: Run(states, steps) && states[|steps|] == s
  }

  lemma RunExtends(states: seq<Sys<nat>>, steps: seq<Step<nat>>, step: Step<nat>)
    requires Run(states, steps) && Guard(states[|steps|], step) && Defined(states[|steps|], step)
    ensures Run(states + [Next(states[|steps|], step)], steps + [step])
  {
    var states', steps' := states + [Next(states[|steps|], step)], steps + [step];
    forall j | 0 <= j < |steps'|
      ensures Guard(states'[j], steps'[j]) && Defined(states'[j], steps'[j])
      ensures states'[j + 1] == Next(states'[j], steps'[j])
    {
      if j < |steps| {
        assert states'[j] == states[j] && states'[j + 1] == states[j + 1] && steps'[j] == steps[j];
      }
    }
  }

  lemma ReachableStep(s: Sys<nat>, step: Step<nat>)
    requires Reachable(s) && Guard(s, step)
    ensures Inv(s) && Defined(s, step) && Inv(Next(s, step)) && Reachable(Next(s, step))
  {
    var states: seq<Sys<nat>>, steps: seq<Step<nat>> :| Run(states, steps) && states[|steps|] == s;
    RunKeeps(states, steps, |steps|);
    StepKeeps(s, step);
    RunExtends(states, steps, step);
    var states' := states + [Next(s, step)];
    assert states'[|steps + [step]|] == Next(s, step);
  }

  const CAPACITY: nat := 100

  function Upto(k: nat): (s: seq<nat>)
    ensures |s| == k
  {
    seq(k, i requires 0 <= i < k => i)
  }

  lemma UptoMore(k: nat)
    ensures Upto(k) + [k] == Upto(k + 1)
    ensures Upto(k + 1)[k..] + Upto(k + 1)[..k] == [k] + Upto(k)
  {
  }

  /** A literal key for each task. */
  function Key(i: nat): (key: Bytes)
    ensures |key| == i + 1
  {
    seq(i + 1, j requires 0 <= j < i + 1 => 'L')
  }

  /** Task `i` waits for its first retry since the pass that failed at time `i`. */
  predicate Waits(r: Record, i: nat) {
    r.retryAt == i + 100 && r.enqueuedAt == i && r.key == Key(i)
  }

  /** One idle worker, and the first `k` tasks wait. */
  ghost predicate Stage(s: Sys<nat>, k: nat) {
    && Reachable(s) && Inv(s) && s.q.maxSize == CAPACITY && s.q.paths == {[]} && s.q.oldest == 0
    && 1 in s.workers && s.workers[1].slot == 0
    && forall i :: 0 <= i < k ==> i in s.q.records && Waits(s.q.records[i], i)
  }

  ghost predicate AllWait(s: Sys<nat>, k: nat) {
    Stage(s, k) && s.q.pending == Upto(k) && s.q.active == [] && s.workers[1].pass.None?
  }

  /** One more task has just been admitted. */
  ghost predicate OneFresh(s: Sys<nat>, k: nat) {
    && Stage(s, k) && s.q.pending == Upto(k + 1) && s.q.active == [] && s.workers[1].pass.None?
    && k in s.q.records && s.q.records[k] == NewRecord(TaskKey([], Key(k)), false, [], k)
  }

  lemma Begin() returns (s: Sys<nat>)
    ensures AllWait(s, 0)
  {
    var zeros := seq(SLOTS, _ => 0);
    var q := Queue([], [], 0, 0, 0, zeros, zeros, CAPACITY, {[]}, map[], map[], map[]);
    var s0 := Sys(q, map[], map[], 0);
    assert WellFormed(q) by {
      assert multiset(q.records.Keys) == multiset{};
    }
    var none: seq<Step<nat>> := [];
    assert Run([s0], none);
    var step := Step<nat>.Start(1, 0, {});
    ReachableStep(s0, step);
    s := Next(s0, step);
    assert Upto(0) == [];
  }

  lemma NewKey(s: Sys<nat>, k: nat)
    requires AllWait(s, k)
    ensures TaskKey([], Key(k)) !in s.q.index && k !in s.q.records
  {
    ListedItem(s.q, k);
    forall i | i in s.q.records
      ensures i < k && |s.q.records[i].key| == i + 1
    {
      ListedItem(s.q, i);
    }
    assert TaskKey([], Key(k)) in s.q.index ==> EntryOk(s.q, TaskKey([], Key(k)));
  }

  lemma Admits(s: Sys<nat>, k: nat) returns (t: Sys<nat>)
    requires AllWait(s, k) && k < CAPACITY
    ensures OneFresh(t, k)
  {
    NewKey(s, k);
    var step := Enqueue(k, TaskKey([], Key(k)), false, [], k, 0, false);
    ReachableStep(s, step);
    t := Next(s, step);
    UptoMore(k);
  }

  /** At time `k` the waiting tasks are not ready. */
  lemma NotYet(i: nat, k: nat)
    requires i < k <= SCAN_LIMIT
    ensures !Reached(k, i + 100)
  {
  }

  /** The scan passes over the waiting tasks, and finds the fresh one if it looks that far. */
  lemma Scans(s: Sys<nat>, k: nat)
    requires OneFresh(s, k) && k <= SCAN_LIMIT
    ensures s.q.size == |s.q.pending| && forall i :: i in s.q.pending ==> i in s.q.records
    ensures Scan(s.q, k) == k && ScanWindow(s.q) == if k < SCAN_LIMIT then k + 1 else SCAN_LIMIT
  {
    PendingRecorded(s.q);
    forall j | 0 <= j < k
      ensures !QueueState.Ready(s.q.records[s.q.pending[j]], k)
    {
      NotYet(j, k);
    }
    FirstReadyIs(s.q.pending, s.q.records, k, ScanWindow(s.q), k);
  }

  /** The worker is in a pass over the fresh task. */
  ghost predicate OneTaken(s: Sys<nat>, k: nat, complete: bool, tally: Tally) {
    && Stage(s, k) && s.q.pending == Upto(k) && s.q.active == [k]
    && s.workers[1].pass.Some? && s.workers[1].pass.value.item == k
    && s.workers[1].pass.value.complete == complete && s.workers[1].pass.value.tally == tally
    && k in s.q.records && s.q.records[k].key == Key(k) && s.q.records[k].retries == 0 && !s.q.records[k].rerun
  }

  /** What taking the last of the pending tasks makes of the queue. */
  lemma TakenLast(q: Queue<nat>, k: nat, pid: nat, slot: nat)
    requires |q.pending| == k + 1 && q.pending == Upto(k + 1) && q.active == [] && q.size > 0 && slot < |q.epochs|
    requires forall i: nat :: i <= k ==> i in q.records
    requires k > 0 ==> q.records[0].enqueuedAt == 0
    ensures TakeHead.requires(RotatePending(q, k), pid, slot)
    ensures var q' := TakeHead(RotatePending(q, k), pid, slot);
      && q'.pending == Upto(k) && q'.active == [k] && q'.oldest == (if k > 0 then 0 else q.oldest)
      && q'.maxSize == q.maxSize && q'.paths == q.paths
      && (forall i: nat :: i < k ==> i in q'.records && q'.records[i] == q.records[i])
      && k in q'.records && q'.records[k] == Claimed(q.records[k], pid, slot, q.epochs[slot])
  {
    UptoMore(k);
  }

  lemma Takes(s: Sys<nat>, k: nat) returns (t: Sys<nat>)
    requires OneFresh(s, k) && k < SCAN_LIMIT
    ensures OneTaken(t, k, false, Tally(0, 0, 0, 0))
  {
    Scans(s, k);
    var step := Step<nat>.Pick(1, k);
    ReachableStep(s, step);
    t := Next(s, step);
    TakenLast(s.q, k, 1, 0);
  }

  lemma Walks(s: Sys<nat>, k: nat) returns (t: Sys<nat>)
    requires OneTaken(s, k, false, Tally(0, 0, 0, 0))
    ensures OneTaken(t, k, true, Tally(0, 0, 0, 1))
  {
    var step := Step<nat>.Walk(1, Tally(0, 0, 0, 1), true);
    ReachableStep(s, step);
    t := Next(s, step);
  }

  /** What a failed first pass over the only active task makes of the queue. */
  lemma Retried(q: Queue<nat>, k: nat, now: nat, slot: nat)
    requires k in q.records && q.running > 0 && q.active == [k]
    requires q.records[k].retries == 0 && !q.records[k].rerun && now + 100 < MSEC_MODULUS
    ensures var q' := QueueState.Finish(q, k, true, true, now, slot);
      && q'.pending == q.pending + [k] && q'.active == [] && q'.oldest == (if q.pending == [] then now else q.oldest)
      && q'.maxSize == q.maxSize && q'.paths == q.paths
      && (forall i :: i in q.records && i != k ==> i in q'.records && q'.records[i] == q.records[i])
      && k in q'.records && q'.records[k].retryAt == now + 100 && q'.records[k].enqueuedAt == now
      && q'.records[k].key == q.records[k].key
  {
  }

  lemma Fails(s: Sys<nat>, k: nat) returns (t: Sys<nat>)
    requires OneTaken(s, k, true, Tally(0, 0, 0, 1)) && k < SCAN_LIMIT
    ensures AllWait(t, k + 1)
  {
    var step := Step<nat>.End(1, false, k);
    ReachableStep(s, step);
    t := Next(s, step);
    Retried(Report(s.q, s.q.records[k].path, Tally(0, 0, 0, 1), 0), k, k, 0);
    UptoMore(k);
  }

  lemma {:induction false} Fill(k: nat) returns (s: Sys<nat>)
    requires k <= SCAN_LIMIT
    ensures AllWait(s, k)
  {
    if k == 0 {
      s := Begin();
    } else {
      s := Fill(k - 1);
      s := Admits(s, k - 1);
      s := Takes(s, k - 1);
      s := Walks(s, k - 1);
      s := Fails(s, k - 1);
    }
  }

  /** A reachable state in which the reported age is right, and a step after which it is not. */
  lemma AgeGetsLost() returns (s: Sys<nat>, step: Step<nat>)
    ensures Reachable(s) && Guard(s, step) && Defined(s, step) && HeadAge(s.q) && !HeadAge(Next(s, step).q)
  {
    s := Fill(SCAN_LIMIT);
    s := Admits(s, SCAN_LIMIT);
    Scans(s, SCAN_LIMIT);
    step := Step<nat>.Pick(1, SCAN_LIMIT);
    ReachableStep(s, step);
    assert Next(s, step).q.pending[0] == SCAN_LIMIT;
  }
}
