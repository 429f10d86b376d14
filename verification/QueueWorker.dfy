/**
 One worker's side of the queue: process_queue between its two locked sections, and the exit of a worker.
 Every call is proved to be a short run of the steps of `QueueProtocol`, so what holds in all runs of the
 protocol holds for workers that call these methods.
 */
module QueueWorker {
  import opened Bytes
  import opened QueueState
  import opened QueueInvariants
  import opened QueueProtocol
  import opened CleanupQueue

  datatype Status = Idle | Busy | Again

  // What a slice of the walk has counted so far, and whether it ended the walk.
  datatype Slice = Slice(tally: Tally, ends: bool)

  // The shutdown flags, the outcomes of the two trylocks, the slice, and the clock.
  datatype Turn = Turn(exiting: bool, first: bool, second: bool, slice: Slice, now: nat)

  ghost predicate Goes<I>(s: Sys<I>, step: Step<I>, t: Sys<I>) {
    Guard(s, step) && Defined(s, step) && t == Next(s, step)
  }

  // A piece of a run: the states it passes through and the steps between them.
  datatype Path<I(==)> = Path(states: seq<Sys<I>>, steps: seq<Step<I>>) {
    ghost predicate From(s: Sys<I>) {
      && |states| == |steps| + 1 && states[0] == s
      && forall j {:trigger Joined(j)} :: 0 <= j < |steps| ==> Joined(j)
    }

    ghost predicate Joined(j: nat)
      requires j < |steps| && |states| == |steps| + 1
    {
      Goes(states[j], steps[j], states[j + 1])
    }

    function End(): Sys<I>
      requires states != []
    {
      states[|states| - 1]
    }
  }

  function Stay<I>(s: Sys<I>): Path<I> {
    Path([s], [])
  }

  function Then<I>(p: Path<I>, step: Step<I>, t: Sys<I>): Path<I> {
    Path(p.states + [t], p.steps + [step])
  }

  lemma PathGrows<I>(s: Sys<I>, p: Path<I>, step: Step<I>, t: Sys<I>)
    requires p.From(s) && Goes(p.End(), step, t)
    ensures Then(p, step, t).From(s) && Then(p, step, t).End() == t
  {
    var q := Then(p, step, t);
    forall j | 0 <= j < |q.steps|
      ensures q.Joined(j)
    {
      assert j < |p.steps| ==> p.Joined(j);
    }
  }

  /** What the protocol keeps, it keeps along a path. */
  lemma {:induction false} PathKeeps<I>(s: Sys<I>, p: Path<I>, j: nat)
    requires Inv(s) && p.From(s) && j < |p.states|
    ensures Inv(p.states[j])
  {
    if j > 0 {
      PathKeeps(s, p, j - 1);
      assert p.Joined(j - 1);
      StepKeeps(p.states[j - 1], p.steps[j - 1]);
    }
  }

  /** The protocol's worker is in this pass, or in none. */
  predicate Carries(w: QueueProtocol.Worker<Item>, item: Item?, complete: bool, tally: Tally) {
    if item == null then w.pass.None?
    else w.pass.Some? && w.pass.value.item == item && w.pass.value.complete == complete && w.pass.value.tally == tally
  }

  class Worker {
    const queue: CleanupQueue
    const pid: nat
    const slot: nat
    const namespaces: set<Bytes>
    var item: Item?
    var complete: bool
    var tally: Tally

    /** The worker and the queue are those of the protocol state. */
    ghost predicate Mirrors(s: Sys<Item>)
      reads this, queue, queue.owners, queue.epochs, queue.abs.records.Keys
    {
      && queue.Valid() && s.q == queue.abs && slot < SLOTS && pid in s.workers
      && Matches(s.workers[pid])
    }

    ghost predicate Matches(w: QueueProtocol.Worker<Item>)
      reads this
    {
      w.slot == slot && w.namespaces == namespaces && Carries(w, item, complete, tally)
    }

    constructor (queue: CleanupQueue, pid: nat, slot: nat, namespaces: set<Bytes>)
      ensures this.queue == queue && this.pid == pid && this.slot == slot && this.namespaces == namespaces
      ensures item == null && !complete && tally == Tally(0, 0, 0, 0)
    {
      this.queue, this.pid, this.slot, this.namespaces := queue, pid, slot, namespaces;
      item, complete, tally := null, false, Tally(0, 0, 0, 0);
    }

    /** The start of a pass; a task of a removed namespace is complete at once. */
    method Adopt(i: Item, ghost s: Sys<Item>)
      requires queue.Valid() && s.q == queue.abs && slot < SLOTS && pid in s.workers
      requires s.workers[pid].slot == slot && s.workers[pid].namespaces == namespaces
      requires Carries(s.workers[pid], i, Orphaned(i.key, namespaces), Tally(0, 0, 0, 0))
      modifies this
      ensures item == i && Mirrors(s) && complete == Orphaned(i.key, namespaces)
    {
      item, tally := i, Tally(0, 0, 0, 0);
      complete := i.key != [] && i.key[0] == 'G' && i.key[1..] !in namespaces;
    }

    /** Take a task if one is ready. */
    method Take(first: bool, now: nat, ghost s: Sys<Item>, ghost p: Path<Item>)
      returns (idle: bool, ghost p': Path<Item>)
      requires p.From(s) && Mirrors(p.End()) && Inv(p.End()) && item == null
      modifies this, queue, queue.abs.records.Keys
      ensures p'.From(s) && Mirrors(p'.End()) && |p'.steps| <= |p.steps| + 1 && (idle ==> item == null)
      ensures queue.abs.records.Keys == old(queue.abs.records.Keys)
      // Only the task of a namespace that is not configured is complete at once.
      ensures item != null ==> (complete <==> exists name: Bytes :: item.key == ['G'] + name && name !in namespaces)
    {
      var taken;
      taken, idle, p' := TakeLocked(first, now, s, p);
      if taken != null {
        Adopt(taken, p'.End());
        OrphanedExactly(item.key, namespaces);
      }
    }

    /** The locked section that takes a task; the worker itself has not begun yet. */
    method TakeLocked(first: bool, now: nat, ghost s: Sys<Item>, ghost p: Path<Item>)
      returns (taken: Item?, idle: bool, ghost p': Path<Item>)
      requires p.From(s) && Mirrors(p.End()) && Inv(p.End()) && item == null
      modifies queue, queue.abs.records.Keys
      ensures p'.From(s) && |p'.steps| <= |p.steps| + 1 && (idle ==> taken == null)
      ensures queue.Valid() && p'.End().q == queue.abs && pid in p'.End().workers
      ensures p'.End().workers[pid].slot == slot && p'.End().workers[pid].namespaces == namespaces
      ensures if taken == null then p'.End().workers[pid].pass.None?
              else Carries(p'.End().workers[pid], taken, Orphaned(taken.key, namespaces), Tally(0, 0, 0, 0))
      ensures queue.abs.records.Keys == old(queue.abs.records.Keys)
    {
      ghost var was := queue.abs;
      taken, idle := queue.TakeNext(first, now, pid, slot);
      p' := p;
      if first && was.pending != [] {
        p' := TakenIsPick(s, p, pid, now, queue.abs, taken);
      }
      assert taken != null ==> taken.View() == queue.abs.records[taken];
    }

    /** A slice of the walk, outside any lock. */
    method Continue(slice: Slice, ghost s: Sys<Item>, ghost p: Path<Item>) returns (ghost p': Path<Item>)
      requires p.From(s) && Mirrors(p.End()) && item != null && !complete
      modifies this`complete, this`tally
      ensures p'.From(s) && Mirrors(p'.End()) && |p'.steps| == |p.steps| + 1 && complete == slice.ends
    {
      ghost var t := p.End();
      complete, tally := slice.ends, slice.tally;
      PathGrows(s, p, Walk(pid, slice.tally, slice.ends), Next(t, Walk(pid, slice.tally, slice.ends)));
      p' := Then(p, Walk(pid, slice.tally, slice.ends), Next(t, Walk(pid, slice.tally, slice.ends)));
    }

    /** The locked end of the pass, or the hand-back of a worker on its way out. */
    method Finish(final: bool, now: nat, ghost s: Sys<Item>, ghost p: Path<Item>) returns (ghost p': Path<Item>)
      requires p.From(s) && Mirrors(p.End()) && Inv(p.End()) && item != null && (final || complete)
      modifies this`item, queue, queue.abs.records.Keys
      ensures p'.From(s) && Mirrors(p'.End()) && |p'.steps| == |p.steps| + 1 && item == null
    {
      p' := FinishLocked(final, now, s, p);
      item := null;
    }

    method FinishLocked(final: bool, now: nat, ghost s: Sys<Item>, ghost p: Path<Item>) returns (ghost p': Path<Item>)
      requires p.From(s) && Mirrors(p.End()) && Inv(p.End()) && item != null && (final || complete)
      modifies queue, queue.abs.records.Keys
      ensures p'.From(s) && |p'.steps| == |p.steps| + 1 && queue.Valid() && p'.End().q == queue.abs
      ensures pid in p'.End().workers && p'.End().workers[pid] == p.End().workers[pid].(pass := None)
    {
      p' := CompleteIsEnd(s, p, pid, final, now);
      assert item.path == queue.abs.records[item].path by {
        assert item.View() == queue.abs.records[item];
      }
      queue.Complete(item, complete, tally, now, slot);
    }

    /**
     process_queue. A call is a path of at most three steps of the protocol: it may take a task, walk a slice
     and end the pass. A worker on its way out takes nothing new and hands back what it has.
     */
    method ProcessQueue(e: Turn, final: bool, ghost s: Sys<Item>) returns (status: Status, ghost p: Path<Item>)
      requires Mirrors(s) && Inv(s)
      modifies this, queue, queue.abs.records.Keys
      ensures p.From(s) && Mirrors(p.End()) && |p.steps| <= 3
      ensures status != Busy || final ==> item == null
      ensures old(item) != null && item != null ==> item == old(item)
      ensures old(item) == null && (final || e.exiting) ==> p.steps == [] && item == null
    {
      p := Stay(s);
      if item == null {
        if final || e.exiting {
          return Idle, p;
        }
        var idle;
        idle, p := Take(e.first, e.now, s, p);
        if item == null {
          return if idle then Idle else Busy, p;
        }
      }
      PathKeeps(s, p, |p.steps|);
      status, p := WorkOn(e, final, s, p);
    }

    /** A slice of the walk and, if that or an earlier one ended it, the end of the pass. */
    method WorkOn(e: Turn, final: bool, ghost s: Sys<Item>, ghost p: Path<Item>)
      returns (status: Status, ghost p': Path<Item>)
      requires Inv(s) && p.From(s) && Mirrors(p.End()) && Inv(p.End()) && item != null
      modifies this, queue, queue.abs.records.Keys
      ensures p'.From(s) && Mirrors(p'.End()) && |p'.steps| <= |p.steps| + 2
      ensures status != Busy || final ==> item == null
      ensures item != null ==> item == old(item)
    {
      p' := p;
      if !final && !complete {
        p' := Continue(e.slice, s, p);
        if !complete {
          return Busy, p';
        }
        PathKeeps(s, p', |p'.steps|);
      }
      if !final && !e.second {
        return Busy, p';
      }
      p' := Finish(final, e.now, s, p');
      status := Again;
    }

    /** exit_worker: hand back the task, then give up the slot. */
    method Exit(now: nat, ghost s: Sys<Item>) returns (ghost p: Path<Item>)
      requires Mirrors(s) && Inv(s)
      modifies this, queue, queue.abs.records.Keys, queue.owners
      ensures p.From(s) && item == null && queue.Valid() && p.End().q == queue.abs && pid !in p.End().workers
    {
      p := Stay(s);
      if item != null {
        p := Finish(true, now, s, p);
      }
      ghost var t := p.End();
      PathGrows(s, p, Step.Leave(pid), Next(t, Step.Leave(pid)));
      p := Then(p, Step.Leave(pid), Next(t, Step.Leave(pid)));
      queue.Leave(slot);
    }
  }

  /** What TakeNext does is the protocol's step. */
  lemma TakenIsPick(s: Sys<Item>, p: Path<Item>, pid: nat, now: nat, q: Queue<Item>, item: Item?)
    returns (p': Path<Item>)
    requires p.From(s) && Inv(p.End()) && Guard(p.End(), Pick(pid, now))
    requires Taken(p.End().q, q, item, now, pid, p.End().workers[pid].slot)
    ensures p'.From(s) && |p'.steps| == |p.steps| + 1
    ensures var t, u := p.End(), p'.End();
      && u.q == q && q.records.Keys == t.q.records.Keys
      && pid in u.workers && u.workers[pid].slot == t.workers[pid].slot
      && u.workers[pid].namespaces == t.workers[pid].namespaces
      && (item == null ==> u.workers[pid].pass.None?)
      && (item != null ==>
            && item in q.records
            && Carries(u.workers[pid], item, Orphaned(q.records[item].key, t.workers[pid].namespaces),
                       Tally(0, 0, 0, 0)))
  {
    var t := p.End();
    NothingUndefined(t, Pick(pid, now));
    ListedItem(t.q, t.q.pending[0]);
    PathGrows(s, p, Pick(pid, now), Next(t, Pick(pid, now)));
    p' := Then(p, Pick(pid, now), Next(t, Pick(pid, now)));
  }

  /** What Complete does is the protocol's step. */
  lemma CompleteIsEnd(s: Sys<Item>, p: Path<Item>, pid: nat, final: bool, now: nat) returns (p': Path<Item>)
    requires p.From(s) && Inv(p.End()) && Guard(p.End(), Step.End(pid, final, now))
    ensures p'.From(s) && |p'.steps| == |p.steps| + 1
    ensures var t, u := p.End(), p'.End(); var w := t.workers[pid]; var pass := w.pass.value;
      && pass.item in t.q.active && pass.item in t.q.records && t.q.running > 0
      && u.q == QueueState.Finish(Report(t.q, t.q.records[pass.item].path, pass.tally, w.slot),
                                  pass.item, pass.complete, pass.tally.Errors(), now, w.slot)
      && pid in u.workers && u.workers[pid] == w.(pass := None)
  {
    var t := p.End();
    NothingUndefined(t, Step.End(pid, final, now));
    assert Seated(t, pid) && ItemOk(t.q, t.workers[pid].pass.value.item);
    PathGrows(s, p, Step.End(pid, final, now), Next(t, Step.End(pid, final, now)));
    p' := Then(p, Step.End(pid, final, now), Next(t, Step.End(pid, final, now)));
  }
}
