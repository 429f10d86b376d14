/**
 The credits that bound concurrent REFRESH probes over all workers: `probe_credit` of
 ngx_cache_purge_queue.c on the shared slot arrays, and the life of a credit over runs in which
 workers start, reload, exit and crash.
 */
module ProbeCredits {
  import opened Bytes
  import QueueState

  const SLOTS: nat := QueueState.SLOTS
  const CREDITS: nat := 16  // NGX_CACHE_PURGE_REFRESH_PROBES

  function Sum(s: seq<nat>): nat {
    if s == [] then 0 else Sum(s[..|s| - 1]) + s[|s| - 1]
  }

  lemma {:induction false} SumUpdate(s: seq<nat>, i: nat, v: nat)
    requires i < |s|
    ensures Sum(s[i := v]) == Sum(s) - s[i] + v
  {
    var n := |s| - 1;
    if i == n {
      assert s[i := v][..n] == s[..n];
    } else {
      SumUpdate(s[..n], i, v);
      assert s[i := v][..n] == s[..n][i := v];
    }
  }

  lemma {:induction false} SumLeast(s: seq<nat>, t: seq<nat>)
    requires |s| == |t| && forall i :: 0 <= i < |s| ==> s[i] <= t[i]
    ensures Sum(s) <= Sum(t)
  {
    if s != [] {
      SumLeast(s[..|s| - 1], t[..|t| - 1]);
    }
  }

  /** A slot without a live owner gives its credits back. */
  function Kept(probes: seq<nat>, owners: seq<nat>, alive: set<nat>, i: nat): nat
    requires i < |probes| == |owners|
  {
    if owners[i] == 0 || owners[i] !in alive then 0 else probes[i]
  }

  function Cleaned(probes: seq<nat>, owners: seq<nat>, alive: set<nat>): (r: seq<nat>)
    requires |probes| == |owners|
    ensures |r| == |probes|
  {
    seq(|probes|, i requires 0 <= i < |probes| => Kept(probes, owners, alive, i))
  }

  lemma CleanedSum(probes: seq<nat>, owners: seq<nat>, alive: set<nat>)
    requires |probes| == |owners|
    ensures Sum(Cleaned(probes, owners, alive)) <= Sum(probes)
  {
    SumLeast(Cleaned(probes, owners, alive), probes);
  }

  // ---- the shared arrays ----

  class CreditSlots {
    const owners: array<nat>
    const probes: array<nat>

    predicate Valid()
      reads this
    {
      owners != probes && owners.Length == probes.Length == SLOTS
    }

    constructor (owners: array<nat>)
      requires owners.Length == SLOTS
      ensures Valid() && this.owners == owners && fresh(probes) && probes[..] == seq(SLOTS, _ => 0)
    {
      this.owners := owners;
      probes := new nat[SLOTS](_ => 0);
      new;
      assert probes[..] == seq(SLOTS, _ => 0);
    }

    /** `take` fails when the lock is busy or the credits of all live workers are used up. */
    method Take(slot: nat, acquired: bool, alive: set<nat>) returns (ok: bool)
      requires Valid() && slot < SLOTS
      modifies probes
      ensures ok <==> acquired && Sum(Cleaned(old(probes[..]), owners[..], alive)) < CREDITS
      ensures !acquired ==> probes[..] == old(probes[..])
      ensures acquired && !ok ==> probes[..] == Cleaned(old(probes[..]), owners[..], alive)
      ensures ok ==> var c := Cleaned(old(probes[..]), owners[..], alive); probes[..] == c[slot := c[slot] + 1]
    {
      if !acquired {
        return false;
      }
      ghost var was, kept := probes[..], Cleaned(probes[..], owners[..], alive);
      var total, i := 0, 0;
      while i < SLOTS
        invariant i <= SLOTS
        invariant forall j :: 0 <= j < i ==> probes[j] == kept[j]
        invariant forall j :: i <= j < SLOTS ==> probes[j] == was[j]
        invariant total == Sum(kept[..i])
      {
        if probes[i] != 0 && (owners[i] == 0 || owners[i] !in alive) {
          probes[i] := 0;
        }
        assert kept[..i + 1][..i] == kept[..i];
        total := total + probes[i];
        i := i + 1;
      }
      assert kept[..SLOTS] == kept && probes[..] == kept;
      if total >= CREDITS {
        return false;
      }
      probes[slot] := probes[slot] + 1;
      ok := true;
    }

    /** A release never takes a slot below zero. */
    method Release(slot: nat)
      requires Valid() && slot < SLOTS
      modifies probes
      ensures probes[..] == if old(probes[slot]) == 0 then old(probes[..])
                            else old(probes[..])[slot := old(probes[slot]) - 1]
    {
      if probes[slot] != 0 {
        probes[slot] := probes[slot] - 1;
      }
    }
  }

  // ---- the life of a credit ----

  // A live worker and the REFRESH jobs that hold a credit; `forgotten` counts the credits that were
  // held when init_worker ran again in the same process and cleared the slot.
  datatype Worker = Worker(slot: nat, jobs: set<nat>, forgotten: nat)

  datatype State = State(owners: seq<nat>, probes: seq<nat>, workers: map<nat, Worker>)

  datatype Step =
    | Start(pid: nat, slot: nat)
    | Reload(pid: nat)
    | Take(pid: nat, job: nat, alive: set<nat>)  // refresh_probe takes the credit of its job
    | Full(alive: set<nat>)                      // no credit left; dead owners' slots are cleared all the same
    | Release(pid: nat, job: nat)                // completion, failure or disconnect
    | Leave(pid: nat)
    | Crash(pid: nat)

  ghost predicate Init(s: State) {
    |s.owners| == |s.probes| == SLOTS && s.workers == map[] && forall i :: 0 <= i < SLOTS ==> s.probes[i] == 0
  }

  ghost predicate Enabled(s: State, step: Step) {
    && |s.owners| == |s.probes| == SLOTS
    && match step
       case Start(pid, slot) =>
         pid != 0 && pid !in s.workers && slot < SLOTS && forall p :: p in s.workers ==> s.workers[p].slot != slot
       case Reload(pid) => pid in s.workers && s.workers[pid].slot < SLOTS
       case Take(pid, job, alive) =>
         && pid in s.workers && s.workers[pid].slot < SLOTS && job !in s.workers[pid].jobs && s.workers.Keys <= alive
         && Sum(Cleaned(s.probes, s.owners, alive)) < CREDITS
       case Full(alive) => s.workers.Keys <= alive && Sum(Cleaned(s.probes, s.owners, alive)) >= CREDITS
       case Release(pid, job) => pid in s.workers && s.workers[pid].slot < SLOTS && job in s.workers[pid].jobs
       // On the way out the connections, and with them the jobs, are gone.
       case Leave(pid) => pid in s.workers && s.workers[pid].slot < SLOTS
       case Crash(pid) => pid in s.workers
  }

  ghost function Next(s: State, step: Step): State
    requires Enabled(s, step)
  {
    match step
    case Start(pid, slot) =>
      State(s.owners[slot := pid], s.probes[slot := 0], s.workers[pid := Worker(slot, {}, 0)])
    case Reload(pid) =>
      var w := s.workers[pid];
      State(s.owners[w.slot := pid], s.probes[w.slot := 0], s.workers[pid := w.(forgotten := |w.jobs|)])
    case Take(pid, job, alive) =>
      var w, c := s.workers[pid], Cleaned(s.probes, s.owners, alive);
      s.(probes := c[w.slot := c[w.slot] + 1], workers := s.workers[pid := w.(jobs := w.jobs + {job})])
    case Full(alive) => s.(probes := Cleaned(s.probes, s.owners, alive))
    case Release(pid, job) =>
      var w := s.workers[pid];
      if s.probes[w.slot] == 0 then
        var forgotten := if w.forgotten > 0 then w.forgotten - 1 else 0;
        s.(workers := s.workers[pid := w.(jobs := w.jobs - {job}, forgotten := forgotten)])
      else
        s.(probes := s.probes[w.slot := s.probes[w.slot] - 1], workers := s.workers[pid := w.(jobs := w.jobs - {job})])
    case Leave(pid) =>
      var slot := s.workers[pid].slot;
      State(s.owners[slot := 0], s.probes[slot := 0], s.workers - {pid})
    case Crash(pid) => s.(workers := s.workers - {pid})
  }

  /** A live worker's slot counts the credits its jobs hold, less the forgotten ones. */
  ghost predicate Exact(s: State, p: nat)
    requires p in s.workers && |s.owners| == |s.probes| == SLOTS
  {
    var w := s.workers[p];
    w.slot < SLOTS && p != 0 && s.owners[w.slot] == p && s.probes[w.slot] + w.forgotten == |w.jobs|
  }

  ghost predicate Inv(s: State) {
    && |s.owners| == |s.probes| == SLOTS && Sum(s.probes) <= CREDITS
    && forall p {:trigger Exact(s, p)} :: p in s.workers ==> Exact(s, p)
  }

  /** The slot arrays changed in one place at most, and so did the workers. */
  lemma OneWorker(s: State, s': State, pid: nat, slot: nat)
    requires Inv(s) && slot < SLOTS && |s'.owners| == |s'.probes| == SLOTS && Sum(s'.probes) <= CREDITS
    requires s'.workers.Keys - {pid} <= s.workers.Keys
    requires forall p :: p in s'.workers && p != pid ==> s'.workers[p] == s.workers[p] && s.workers[p].slot != slot
    requires forall i :: 0 <= i < SLOTS && i != slot ==> s'.owners[i] == s.owners[i] && s'.probes[i] == s.probes[i]
    requires pid in s'.workers ==> Exact(s', pid)
    ensures Inv(s')
  {
    forall p | p in s'.workers
      ensures Exact(s', p)
    {
      assert p != pid ==> Exact(s, p);
    }
  }

  /** No two live workers share a slot. */
  lemma OwnSlot(s: State, p: nat)
    requires Inv(s) && p in s.workers
    ensures Exact(s, p)
    ensures forall o :: o in s.workers && o != p ==> s.workers[o].slot != s.workers[p].slot
  {
    assert Exact(s, p);
    forall o | o in s.workers && o != p
      ensures s.workers[o].slot != s.workers[p].slot
    {
      assert Exact(s, o);
    }
  }

  /** Clearing the slots of dead owners leaves every live worker exact. */
  lemma CleaningKeeps(s: State, alive: set<nat>)
    requires Inv(s) && s.workers.Keys <= alive
    ensures Inv(s.(probes := Cleaned(s.probes, s.owners, alive)))
  {
    CleanedSum(s.probes, s.owners, alive);
    var s' := s.(probes := Cleaned(s.probes, s.owners, alive));
    forall p | p in s'.workers
      ensures Exact(s', p)
    {
      assert Exact(s, p);
    }
  }

  lemma StartKeeps(s: State, pid: nat, slot: nat)
    requires Inv(s) && Enabled(s, Start(pid, slot))
    ensures Inv(Next(s, Start(pid, slot)))
  {
    SumUpdate(s.probes, slot, 0);
    var s' := Next(s, Start(pid, slot));
    assert Exact(s', pid);
    OneWorker(s, s', pid, slot);
  }

  lemma ReloadKeeps(s: State, pid: nat)
    requires Inv(s) && Enabled(s, Reload(pid))
    ensures Inv(Next(s, Reload(pid)))
  {
    OwnSlot(s, pid);
    var s', slot := Next(s, Reload(pid)), s.workers[pid].slot;
    SumUpdate(s.probes, slot, 0);
    assert Exact(s', pid);
    OneWorker(s, s', pid, slot);
  }

  lemma TakeKeeps(s: State, pid: nat, job: nat, alive: set<nat>)
    requires Inv(s) && Enabled(s, Step.Take(pid, job, alive))
    ensures Inv(Next(s, Step.Take(pid, job, alive)))
  {
    CleaningKeeps(s, alive);
    var c, slot := s.(probes := Cleaned(s.probes, s.owners, alive)), s.workers[pid].slot;
    OwnSlot(c, pid);
    SumUpdate(c.probes, slot, c.probes[slot] + 1);
    var s' := Next(s, Step.Take(pid, job, alive));
    assert Exact(s', pid);
    OneWorker(c, s', pid, slot);
  }

  lemma ReleaseKeeps(s: State, pid: nat, job: nat)
    requires Inv(s) && Enabled(s, Step.Release(pid, job))
    ensures Inv(Next(s, Step.Release(pid, job)))
  {
    OwnSlot(s, pid);
    var s', slot := Next(s, Step.Release(pid, job)), s.workers[pid].slot;
    if s.probes[slot] != 0 {
      SumUpdate(s.probes, slot, s.probes[slot] - 1);
    }
    assert Exact(s', pid);
    OneWorker(s, s', pid, slot);
  }

  lemma LeaveKeeps(s: State, pid: nat)
    requires Inv(s) && Enabled(s, Leave(pid))
    ensures Inv(Next(s, Leave(pid)))
  {
    OwnSlot(s, pid);
    SumUpdate(s.probes, s.workers[pid].slot, 0);
    OneWorker(s, Next(s, Leave(pid)), pid, s.workers[pid].slot);
  }

  lemma CrashKeeps(s: State, pid: nat)
    requires Inv(s) && Enabled(s, Crash(pid))
    ensures Inv(Next(s, Crash(pid)))
  {
    OwnSlot(s, pid);
    OneWorker(s, Next(s, Crash(pid)), pid, s.workers[pid].slot);
  }

  lemma StepKeeps(s: State, step: Step)
    requires Inv(s) && Enabled(s, step)
    ensures Inv(Next(s, step))
  {
    match step
    case Start(pid, slot) => StartKeeps(s, pid, slot);
    case Reload(pid) => ReloadKeeps(s, pid);
    case Take(pid, job, alive) => TakeKeeps(s, pid, job, alive);
    case Full(alive) => CleaningKeeps(s, alive);
    case Release(pid, job) => ReleaseKeeps(s, pid, job);
    case Leave(pid) => LeaveKeeps(s, pid);
    case Crash(pid) => CrashKeeps(s, pid);
  }

  // ---- runs ----

  /** These steps lead from `s` to `t`. */
  ghost predicate Path(s: State, steps: seq<Step>, t: State)
    decreases |steps|
  {
    if steps == [] then s == t
    else Enabled(s, steps[0]) && Path(Next(s, steps[0]), steps[1..], t)
  }

  lemma {:induction false} Joins(s: State, a: seq<Step>, m: State, b: seq<Step>, t: State)
    requires Path(s, a, m) && Path(m, b, t)
    ensures Path(s, a + b, t)
    decreases |a|
  {
    if a == [] {
      assert a + b == b;
    } else {
      Joins(Next(s, a[0]), a[1..], m, b, t);
      assert (a + b)[1..] == a[1..] + b;
    }
  }

  lemma Prepend(s: State, step: Step, steps: seq<Step>, t: State) returns (longer: seq<Step>)
    requires Enabled(s, step) && Path(Next(s, step), steps, t) && NoReload(steps) && !step.Reload?
    ensures Path(s, longer, t) && NoReload(longer)
  {
    longer := [step] + steps;
    assert longer[1..] == steps;
  }

  lemma {:induction false} PathKeeps(s: State, steps: seq<Step>, t: State)
    requires Inv(s) && Path(s, steps, t)
    ensures Inv(t)
    decreases |steps|
  {
    if steps != [] {
      StepKeeps(s, steps[0]);
      PathKeeps(Next(s, steps[0]), steps[1..], t);
    }
  }

  lemma {:induction false} ZeroSum(s: seq<nat>)
    requires forall i :: 0 <= i < |s| ==> s[i] == 0
    ensures Sum(s) == 0
  {
    if s != [] {
      ZeroSum(s[..|s| - 1]);
    }
  }

  lemma RunKeeps(s: State, steps: seq<Step>, t: State)
    requires Init(s) && Path(s, steps, t)
    ensures Inv(t)
  {
    ZeroSum(s.probes);
    PathKeeps(s, steps, t);
  }

  // ---- what the bound is worth ----

  /** The probes that run: the jobs of all live workers. */
  ghost function Probes(s: State): set<(nat, nat)> {
    set p, j | p in s.workers && j in s.workers[p].jobs :: (p, j)
  }

  /** The credits held by the live worker of slot `i`. */
  ghost function HeldIn(s: State, i: nat): nat
    requires i < |s.owners|
  {
    if s.owners[i] in s.workers && s.workers[s.owners[i]].slot == i then |s.workers[s.owners[i]].jobs| else 0
  }

  ghost function Held(s: State): seq<nat> {
    seq(|s.owners|, i requires 0 <= i < |s.owners| => HeldIn(s, i))
  }

  ghost function Pairs(p: nat, jobs: set<nat>): set<(nat, nat)> {
    set j | j in jobs :: (p, j)
  }

  lemma {:induction false} PairsOf(p: nat, jobs: set<nat>)
    ensures |Pairs(p, jobs)| == |jobs|
  {
    if jobs == {} {
      assert Pairs(p, jobs) == {};
    } else {
      var k :| k in jobs;
      var rest := jobs - {k};
      PairsOf(p, rest);
      assert jobs == rest + {k} && (p, k) !in Pairs(p, rest);
      assert Pairs(p, jobs) == Pairs(p, rest) + {(p, k)};
    }
  }

  /** The probes of the workers in the first `n` slots. */
  ghost function ProbesBelow(s: State, n: nat): set<(nat, nat)> {
    set p, j | p in s.workers && s.workers[p].slot < n && j in s.workers[p].jobs :: (p, j)
  }

  lemma HeldMore(s: State, n: nat)
    requires Inv(s) && n < SLOTS
    ensures |ProbesBelow(s, n + 1)| == |ProbesBelow(s, n)| + HeldIn(s, n)
  {
    var p := s.owners[n];
    if p in s.workers && s.workers[p].slot == n {
      OwnSlot(s, p);
      PairsOf(p, s.workers[p].jobs);
      assert ProbesBelow(s, n + 1) == ProbesBelow(s, n) + Pairs(p, s.workers[p].jobs);
    } else {
      forall o | o in s.workers
        ensures s.workers[o].slot != n
      {
        assert Exact(s, o);
      }
      assert ProbesBelow(s, n + 1) == ProbesBelow(s, n);
    }
  }

  lemma {:induction false} HeldCounts(s: State, n: nat)
    requires Inv(s) && n <= SLOTS
    ensures |ProbesBelow(s, n)| == Sum(Held(s)[..n])
  {
    if n == 0 {
      assert ProbesBelow(s, 0) == {};
    } else {
      HeldCounts(s, n - 1);
      HeldMore(s, n - 1);
      assert Held(s)[..n][..n - 1] == Held(s)[..n - 1];
    }
  }

  /** Slot by slot, the workers' credits add up to the probes that run. */
  lemma HeldCountsAll(s: State)
    requires Inv(s)
    ensures |Probes(s)| == Sum(Held(s))
  {
    forall p | p in s.workers
      ensures s.workers[p].slot < SLOTS
    {
      assert Exact(s, p);
    }
    assert Probes(s) == ProbesBelow(s, SLOTS) && Held(s)[..SLOTS] == Held(s);
    HeldCounts(s, SLOTS);
  }

  ghost predicate NothingForgotten(s: State) {
    forall p :: p in s.workers ==> s.workers[p].forgotten == 0
  }

  lemma BoundedIfExact(s: State)
    requires Inv(s) && NothingForgotten(s)
    ensures |Probes(s)| <= CREDITS
  {
    forall i | 0 <= i < SLOTS
      ensures Held(s)[i] <= s.probes[i]
    {
      if s.owners[i] in s.workers {
        assert Exact(s, s.owners[i]);
      }
    }
    SumLeast(Held(s), s.probes);
    HeldCountsAll(s);
  }

  /** No more than 16 probes run at once over all live workers, as long as no credit was forgotten. */
  lemma AtMostSixteen(s: State, steps: seq<Step>, t: State)
    requires Init(s) && Path(s, steps, t) && NothingForgotten(t)
    ensures |Probes(t)| <= CREDITS
  {
    RunKeeps(s, steps, t);
    BoundedIfExact(t);
  }

  /** Credits are held by workers in their own slots: no process has come back with the pid of an old owner. */
  ghost predicate NoStaleOwner(s: State) {
    |s.owners| == SLOTS &&
    forall i :: 0 <= i < SLOTS && s.owners[i] in s.workers ==> s.workers[s.owners[i]].slot == i
  }

  /** Then a credit can be had exactly if fewer than 16 probes run; what dead workers held does not count. */
  lemma CreditIsFreeExactly(s: State)
    requires Inv(s) && NothingForgotten(s) && NoStaleOwner(s)
    ensures Sum(Cleaned(s.probes, s.owners, s.workers.Keys)) == |Probes(s)|
    ensures Enabled(s, Full(s.workers.Keys)) <==> |Probes(s)| >= 16
  {
    var c := Cleaned(s.probes, s.owners, s.workers.Keys);
    forall i | 0 <= i < SLOTS
      ensures c[i] == Held(s)[i]
    {
      if s.owners[i] in s.workers {
        assert Exact(s, s.owners[i]);
      }
    }
    assert c == Held(s);
    HeldCountsAll(s);
  }

  /** Every reload in the same process finds no job holding a credit. */
  ghost predicate QuietReloads(s: State, steps: seq<Step>)
    decreases |steps|
  {
    steps == [] ||
    (Enabled(s, steps[0]) && (steps[0].Reload? ==> s.workers[steps[0].pid].jobs == {}) &&
     QuietReloads(Next(s, steps[0]), steps[1..]))
  }

  /** Nothing is forgotten in a run with only such reloads. */
  lemma {:induction false} QuietReloadsForgetNothing(s: State, steps: seq<Step>, t: State)
    requires NothingForgotten(s) && Path(s, steps, t) && QuietReloads(s, steps)
    ensures NothingForgotten(t)
    decreases |steps|
  {
    if steps != [] {
      QuietReloadsForgetNothing(Next(s, steps[0]), steps[1..], t);
    }
  }

  // ---- a reload while a probe runs ----

  predicate NoReload(steps: seq<Step>) {
    forall i :: 0 <= i < |steps| ==> !steps[i].Reload?
  }

  lemma {:induction false} NoReloadIsQuiet(s: State, steps: seq<Step>, t: State)
    requires Path(s, steps, t) && NoReload(steps)
    ensures QuietReloads(s, steps)
    decreases |steps|
  {
    if steps != [] {
      NoReloadIsQuiet(Next(s, steps[0]), steps[1..], t);
    }
  }

  /** However the run goes on without a further reload, at most 16 probes run at once. */
  ghost predicate StaysBounded(s: State) {
    forall steps, t {:trigger Path(s, steps, t)} :: Path(s, steps, t) && NoReload(steps) ==> |Probes(t)| <= CREDITS
  }

  lemma OneGone(s: State, o: nat, pid: nat) returns (t: State)
    requires Inv(s) && pid in s.workers && o in s.workers && o != pid
    ensures Enabled(s, Crash(o)) && t == Next(s, Crash(o)) && Inv(t) && |t.workers| < |s.workers|
    ensures t.probes == s.probes && pid in t.workers && t.workers[pid] == s.workers[pid]
  {
    t := Next(s, Crash(o));
    StepKeeps(s, Crash(o));
    assert s.workers.Keys == t.workers.Keys + {o};
  }

  /** The other workers can all go, without anything changing in the slots. */
  lemma {:induction false} OthersGone(s: State, pid: nat) returns (steps: seq<Step>, t: State)
    requires Inv(s) && pid in s.workers
    ensures Path(s, steps, t) && NoReload(steps)
    ensures t.probes == s.probes && t.workers.Keys == {pid} && t.workers[pid] == s.workers[pid]
    decreases |s.workers|
  {
    if o :| o in s.workers && o != pid {
      var s' := OneGone(s, o, pid);
      steps, t := OthersGone(s', pid);
      steps := Prepend(s, Crash(o), steps, t);
    } else {
      steps, t := [], s;
      assert s.workers.Keys == {pid};
    }
  }

  ghost predicate Alone(s: State, pid: nat) {
    Inv(s) && s.workers.Keys == {pid} && s.workers[pid].slot < SLOTS
  }

  /** A worker that enters a slot and leaves clears it. */
  lemma SlotCleared(s: State, pid: nat, i: nat) returns (steps: seq<Step>, t: State)
    requires Alone(s, pid) && i < SLOTS && i != s.workers[pid].slot
    ensures Path(s, steps, t) && NoReload(steps)
    ensures t == State(s.owners[i := 0], s.probes[i := 0], s.workers) && Alone(t, pid)
  {
    var o := pid + 1;
    var m := Next(s, Start(o, i));
    t := Next(m, Leave(o));
    steps := [Start(o, i), Leave(o)];
    StepKeeps(s, Start(o, i));
    StepKeeps(m, Leave(o));
    assert t.workers == s.workers;
    assert t.owners == s.owners[i := 0] && t.probes == s.probes[i := 0];
    assert Path(m, [Leave(o)], t);
    assert steps[1..] == [Leave(o)];
  }

  lemma {:induction false} SlotsCleared(s: State, pid: nat, n: nat) returns (steps: seq<Step>, t: State)
    requires Alone(s, pid) && n <= SLOTS
    ensures Path(s, steps, t) && NoReload(steps) && Alone(t, pid) && t.workers == s.workers
    ensures t.probes[s.workers[pid].slot] == s.probes[s.workers[pid].slot]
    ensures forall i :: 0 <= i < n && i != s.workers[pid].slot ==> t.probes[i] == 0
  {
    assert Exact(s, pid);
    if n == 0 {
      steps, t := [], s;
    } else {
      steps, t := SlotsCleared(s, pid, n - 1);
      if n - 1 != s.workers[pid].slot {
        var more, u := SlotCleared(t, pid, n - 1);
        Joins(s, steps, t, more, u);
        steps, t := steps + more, u;
      }
    }
  }

  lemma {:induction false} FreshJob(jobs: set<nat>) returns (limit: nat)
    ensures forall j :: j in jobs ==> j < limit
  {
    if jobs == {} {
      limit := 0;
    } else {
      var k :| k in jobs;
      var rest := jobs - {k};
      limit := FreshJob(rest);
      limit := if k < limit then limit else k + 1;
      assert jobs == rest + {k};
    }
  }

  /** Only this worker's slot counts anything. */
  ghost predicate Only(s: State, pid: nat, n: nat) {
    && Alone(s, pid) && s.workers[pid].slot < SLOTS && s.probes[s.workers[pid].slot] == n
    && forall i :: 0 <= i < SLOTS && i != s.workers[pid].slot ==> s.probes[i] == 0
  }

  lemma OnlySum(s: State, pid: nat, n: nat)
    requires Only(s, pid, n)
    ensures Sum(s.probes) == n && Cleaned(s.probes, s.owners, {pid}) == s.probes
  {
    var slot := s.workers[pid].slot;
    assert Exact(s, pid);
    ZeroSum(s.probes[slot := 0]);
    SumUpdate(s.probes, slot, 0);
  }

  lemma TakesOne(s: State, pid: nat, n: nat) returns (step: Step)
    requires Only(s, pid, n) && n < CREDITS
    ensures !step.Reload? && Enabled(s, step) && Only(Next(s, step), pid, n + 1)
    ensures |Next(s, step).workers[pid].jobs| == |s.workers[pid].jobs| + 1
  {
    var job := FreshJob(s.workers[pid].jobs);
    OnlySum(s, pid, n);
    step := Step.Take(pid, job, {pid});
    assert job !in s.workers[pid].jobs;
    StepKeeps(s, step);
  }

  lemma {:induction false} TakesMore(s: State, pid: nat, n: nat) returns (steps: seq<Step>, t: State)
    requires Only(s, pid, n) && n <= CREDITS
    ensures Path(s, steps, t) && NoReload(steps) && Only(t, pid, CREDITS)
    ensures |t.workers[pid].jobs| == |s.workers[pid].jobs| + CREDITS - n
    decreases CREDITS - n
  {
    if n == CREDITS {
      steps, t := [], s;
    } else {
      var step := TakesOne(s, pid, n);
      steps, t := TakesMore(Next(s, step), pid, n + 1);
      steps := Prepend(s, step, steps, t);
    }
  }

  /** A worker that has just lost count of its jobs can go on to exceed the limit. */
  lemma Overfills(s: State, pid: nat) returns (steps: seq<Step>, t: State)
    requires Inv(s) && pid in s.workers && s.workers[pid].slot < SLOTS
    requires s.probes[s.workers[pid].slot] == 0 && s.workers[pid].jobs != {}
    ensures Path(s, steps, t) && NoReload(steps) && |Probes(t)| > CREDITS
  {
    var a, u := OthersGone(s, pid);
    PathKeeps(s, a, u);
    var b, v := SlotsCleared(u, pid, SLOTS);
    Joins(s, a, u, b, v);
    var c, w := TakesMore(v, pid, 0);
    Joins(s, a + b, v, c, w);
    steps, t := a + b + c, w;
    PairsOf(pid, t.workers[pid].jobs);
    assert Probes(t) == Pairs(pid, t.workers[pid].jobs);
  }

  /** A reload in the same process keeps the worker's count exact if and only if no job holds a credit. */
  lemma ReloadIsExact(s: State, pid: nat)
    requires Inv(s) && Enabled(s, Reload(pid))
    ensures var s', slot := Next(s, Reload(pid)), s.workers[pid].slot;
      s'.probes[slot] == |s'.workers[pid].jobs| <==> s.workers[pid].jobs == {}
  {
  }

  /**
   And the limit of 16 holds afterwards, however the run goes on, if and only if no job of the worker
   held a credit: otherwise some continuation exceeds it, whatever the other workers hold.
   */
  lemma ReloadKeepsTheBoundExactly(s: State, pid: nat)
    requires Inv(s) && NothingForgotten(s) && Enabled(s, Reload(pid))
    ensures StaysBounded(Next(s, Reload(pid))) <==> s.workers[pid].jobs == {}
  {
    var s' := Next(s, Reload(pid));
    StepKeeps(s, Reload(pid));
    if s.workers[pid].jobs == {} {
      forall steps, t | Path(s', steps, t) && NoReload(steps)
        ensures |Probes(t)| <= CREDITS
      {
        NoReloadIsQuiet(s', steps, t);
        QuietReloadsForgetNothing(s', steps, t);
        PathKeeps(s', steps, t);
        BoundedIfExact(t);
      }
    } else {
      var steps, t := Overfills(s', pid);
    }
  }

  /** A whole run that gets there: one worker, one probe, a reload. */
  lemma ReloadBreaksTheBound() returns (s: State, steps: seq<Step>, t: State)
    ensures Init(s) && Path(s, steps, t) && |Probes(t)| > CREDITS
  {
    s := State(seq(SLOTS, _ => 0), seq(SLOTS, _ => 0), map[]);
    ZeroSum(s.probes);
    var u := Next(s, Start(1, 0));
    StepKeeps(s, Start(1, 0));
    ZeroSum(u.probes);
    CleanedSum(u.probes, u.owners, {1});
    var v := Next(u, Step.Take(1, 0, {1}));
    StepKeeps(u, Step.Take(1, 0, {1}));
    var w := Next(v, Reload(1));
    StepKeeps(v, Reload(1));
    var more, last := Overfills(w, 1);
    var first := [Start(1, 0), Step.Take(1, 0, {1}), Reload(1)];
    assert Path(w, [], w) && Path(v, [Reload(1)], w);
    assert first[1..] == [Step.Take(1, 0, {1}), Reload(1)] && first[1..][1..] == [Reload(1)];
    assert Path(u, first[1..], w);
    Joins(s, first, w, more, last);
    steps, t := first + more, last;
  }
}
