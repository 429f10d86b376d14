/** Every locked section keeps the queue well-formed. */
module QueueInvariants {
  import opened Bytes
  import opened QueueState
  import opened Sequences

  lemma ListedItem<I>(q: Queue<I>, i: I)
    requires Partitioned(q)
    ensures i in q.records <==> i in q.pending || i in q.active
    ensures !(i in q.pending && i in q.active)
    ensures multiset(q.pending)[i] <= 1 && multiset(q.active)[i] <= 1
  {
    assert (multiset(q.pending) + multiset(q.active))[i] == multiset(q.records.Keys)[i];
  }

  lemma SetMultiset<I>(s: set<I>, i: I)
    ensures i !in s ==> multiset(s + {i}) == multiset(s) + multiset{i}
    ensures i in s ==> multiset(s - {i}) == multiset(s) - multiset{i}
  {
  }

  lemma TakenOut<I>(a: multiset<I>, b: multiset<I>, i: I)
    requires i in b
    ensures a + (b - multiset{i}) == (a + b) - multiset{i}
  {
  }

  // ---- one record changes ----

  /** Rewriting a record keeps the queue in order when its identity and list stay the same. */
  lemma RewriteKeeps<I>(q: Queue<I>, i: I, r: Record, stats: map<Counter, nat>)
    requires WellFormed(q) && i in q.records
    requires r.path == q.records[i].path && r.key == q.records[i].key && r.running == q.records[i].running
    requires (r.rerun ==> r.running) && (r.next.Some? ==> r.rerun) && r.retries <= 3
    ensures WellFormed(q.(records := q.records[i := r], stats := stats))
  {
    var q' := q.(records := q.records[i := r], stats := stats);
    assert q'.records.Keys == q.records.Keys;
    forall j | j in q'.records
      ensures ItemOk(q', j)
    {
      assert ItemOk(q, j);
    }
    forall k | k in q'.index
      ensures EntryOk(q', k)
    {
      assert EntryOk(q, k);
    }
  }

  lemma DedupKeeps<I>(q: Queue<I>, i: I, protection: Protection, slot: nat)
    requires WellFormed(q) && i in q.records
    ensures WellFormed(Dedup(q, i, protection, slot))
  {
    assert ItemOk(q, i);
    RewriteKeeps(q, i, Refreshed(q.records[i], protection), Dedup(q, i, protection, slot).stats);
  }

  // ---- a task arrives ----

  lemma AdmitKeeps<I>(q: Queue<I>, i: I, k: TaskKey, purgeAll: bool, protection: Protection, now: nat, slot: nat)
    requires WellFormed(q) && i !in q.records && k !in q.index && k.path in q.paths
    requires q.size + q.running < q.maxSize
    ensures WellFormed(Admit(q, i, k, purgeAll, protection, now, slot))
  {
    var q' := Admit(q, i, k, purgeAll, protection, now, slot);
    assert q'.records.Keys == q.records.Keys + {i};
    SetMultiset(q.records.Keys, i);
    ListedItem(q, i);
    forall j | j in q'.records
      ensures ItemOk(q', j)
    {
      assert j in q.records ==> ItemOk(q, j);
    }
    forall l | l in q'.index
      ensures EntryOk(q', l)
    {
      assert l in q.index ==> EntryOk(q, l);
    }
  }

  // ---- lists move ----

  /** Reordering the lists changes nothing that matters. */
  lemma ReorderKeeps<I>(q: Queue<I>, pending: seq<I>, active: seq<I>)
    requires WellFormed(q)
    requires multiset(pending) == multiset(q.pending) && multiset(active) == multiset(q.active)
    ensures WellFormed(q.(pending := pending, active := active))
  {
    var q' := q.(pending := pending, active := active);
    assert |pending| == |multiset(pending)| == |q.pending| && |active| == |multiset(active)| == |q.active|;
    forall j | j in q'.records
      ensures ItemOk(q', j)
    {
      assert ItemOk(q, j);
      assert j in active <==> j in multiset(active);
      assert j in q.active <==> j in multiset(q.active);
    }
    forall k | k in q'.index
      ensures EntryOk(q', k)
    {
      assert EntryOk(q, k);
    }
  }

  lemma RotateKeeps<I>(q: Queue<I>, k: nat)
    requires WellFormed(q) && k <= |q.pending|
    ensures WellFormed(RotatePending(q, k))
  {
    RotateMultiset(q.pending, k);
    ReorderKeeps(q, RotatePending(q, k).pending, q.active);
    assert RotatePending(q, k) == q.(pending := RotatePending(q, k).pending, active := q.active);
  }

  lemma PendingRecorded<I>(q: Queue<I>)
    requires Partitioned(q)
    ensures forall i :: i in q.pending ==> i in q.records
    ensures forall i :: i in q.active ==> i in q.records
  {
    forall i | i in q.pending || i in q.active
      ensures i in q.records
    {
      ListedItem(q, i);
    }
  }

  lemma TakeKeeps<I>(q: Queue<I>, pid: nat, slot: nat)
    requires WellFormed(q) && q.pending != [] && slot < SLOTS
    ensures TakeHead.requires(q, pid, slot) && WellFormed(TakeHead(q, pid, slot))
  {
    PendingRecorded(q);
    var q', i := TakeHead(q, pid, slot), q.pending[0];
    assert q.pending == [i] + q.pending[1..];
    assert q'.records.Keys == q.records.Keys;
    ListedItem(q, i);
    assert ItemOk(q, i);
    forall j | j in q'.records
      ensures ItemOk(q', j)
    {
      assert ItemOk(q, j);
    }
    forall k | k in q'.index
      ensures EntryOk(q', k)
    {
      assert EntryOk(q, k);
    }
  }

  lemma GiveBackKeeps<I>(q: Queue<I>, i: I, now: nat, slot: nat)
    requires WellFormed(q) && i in q.active
    ensures i in q.records && q.running > 0 && WellFormed(GiveBack(q, i, now, slot))
  {
    ListedItem(q, i);
    WithoutMultiset(q.active, i);
    var q' := GiveBack(q, i, now, slot);
    assert q'.records.Keys == q.records.Keys;
    forall j | j in q'.records
      ensures ItemOk(q', j)
    {
      assert ItemOk(q, j);
      ListedItem(q, j);
      assert j in q'.active <==> j in multiset(q'.active);
    }
    forall k | k in q'.index
      ensures EntryOk(q', k)
    {
      assert EntryOk(q, k);
    }
  }

  lemma RetireKeeps<I>(q: Queue<I>, i: I, slot: nat)
    requires WellFormed(q) && i in q.active
    ensures i in q.records && q.running > 0 && WellFormed(Retire(q, i, slot))
  {
    ListedItem(q, i);
    WithoutMultiset(q.active, i);
    var q' := Retire(q, i, slot);
    assert q'.records.Keys == q.records.Keys - {i};
    SetMultiset(q.records.Keys, i);
    TakenOut(multiset(q.pending), multiset(q.active), i);
    assert ItemOk(q, i);
    forall j | j in q'.records
      ensures ItemOk(q', j)
    {
      assert ItemOk(q, j);
      ListedItem(q, j);
      assert j in q'.active <==> j in multiset(q'.active);
    }
    forall k | k in q'.index
      ensures EntryOk(q', k)
    {
      assert EntryOk(q, k);
    }
  }

  lemma FinishKeeps<I>(q: Queue<I>, i: I, complete: bool, errors: bool, now: nat, slot: nat)
    requires WellFormed(q) && i in q.active
    ensures i in q.records && q.running > 0 && WellFormed(Finish(q, i, complete, errors, now, slot))
  {
    ListedItem(q, i);
    assert ItemOk(q, i);
    var r := q.records[i];
    match Decide(r, complete, errors)
    case Replay =>
      var r' := r.(retries := 0, retryAt := 0);
      RewriteKeeps(q, i, r', q.stats);
      GiveBackKeeps(q.(records := q.records[i := r']), i, now, slot);
    case Retry =>
      var r' := r.(retries := r.retries + 1, retryAt := (now + RetryDelay(r.retries)) % MSEC_MODULUS);
      var stats := Bump(q.stats, slot, r.path, Retried, 1);
      RewriteKeeps(q, i, r', stats);
      GiveBackKeeps(Delayed(q, i, now, slot), i, now, slot);
    case Done => RetireKeeps(q, i, slot);
    case GiveUp =>
      var stats := Bump(q.stats, slot, r.path, Exhausted, 1);
      RewriteKeeps(q, i, r, stats);
      assert q.records[i := r] == q.records;
      RetireKeeps(q.(stats := stats), i, slot);
  }

  lemma RecoverKeeps<I>(q: Queue<I>, alive: set<nat>, now: nat, slot: nat)
    requires WellFormed(q) && q.active != []
    ensures RecoverHead.requires(q, alive, now, slot) && WellFormed(RecoverHead(q, alive, now, slot))
  {
    var i := q.active[0];
    ListedItem(q, i);
    if Owned(q.records[i], q.owners, q.epochs, alive) {
      assert q.active == [i] + q.active[1..];
      ReorderKeeps(q, q.pending, q.active[1..] + [i]);
      assert RecoverHead(q, alive, now, slot) == q.(pending := q.pending, active := q.active[1..] + [i]);
    } else {
      GiveBackKeeps(q, i, now, slot);
    }
  }

  lemma SlotsKeep<I>(q: Queue<I>, owners: seq<nat>, epochs: seq<nat>)
    requires WellFormed(q) && |owners| == SLOTS && |epochs| == SLOTS
    ensures WellFormed(q.(owners := owners, epochs := epochs))
  {
    var q' := q.(owners := owners, epochs := epochs);
    assert forall i :: i in q.records ==> ItemOk(q, i) ==> ItemOk(q', i);
    assert forall k :: k in q.index ==> EntryOk(q, k) ==> EntryOk(q', k);
  }

  lemma StatsKeep<I>(q: Queue<I>, stats: map<Counter, nat>)
    requires WellFormed(q)
    ensures WellFormed(q.(stats := stats))
  {
    var q' := q.(stats := stats);
    assert forall i :: i in q.records ==> ItemOk(q, i) ==> ItemOk(q', i);
    assert forall k :: k in q.index ==> EntryOk(q, k) ==> EntryOk(q', k);
  }

  // ---- recovery as a whole ----

  /** The recovery loop over the first `n` active tasks. */
  function Recover<I>(q: Queue<I>, n: nat, alive: set<nat>, now: nat, slot: nat): Queue<I>
    requires WellFormed(q) && n <= q.running
    decreases n
  {
    if n == 0 then q
    else
      RecoverKeeps(q, alive, now, slot);
      Recover(RecoverHead(q, alive, now, slot), n - 1, alive, now, slot)
  }

  function RecoverLimit<I>(q: Queue<I>): (n: nat)
    ensures n <= q.running && n <= SCAN_LIMIT
  {
    if q.running < SCAN_LIMIT then q.running else SCAN_LIMIT
  }

  /** The tasks of `s` that recovery leaves with their owners (`owned`), or takes away from dead ones. */
  function Sorted<I>(s: seq<I>, q: Queue<I>, alive: set<nat>, owned: bool): seq<I>
    requires forall i :: i in s ==> i in q.records
  {
    if s == [] then []
    else (if Owned(q.records[s[0]], q.owners, q.epochs, alive) == owned then [s[0]] else [])
         + Sorted(s[1..], q, alive, owned)
  }

  lemma {:induction false} SortedSame<I>(s: seq<I>, q: Queue<I>, q': Queue<I>, alive: set<nat>, owned: bool)
    requires forall i :: i in s ==> i in q.records && i in q'.records && q'.records[i] == q.records[i]
    requires q'.owners == q.owners && q'.epochs == q.epochs
    ensures Sorted(s, q', alive, owned) == Sorted(s, q, alive, owned)
  {
    if s != [] {
      SortedSame(s[1..], q, q', alive, owned);
    }
  }

  /** What one recovery turn leaves for the turns after it. */
  lemma RecoverTurn<I>(q: Queue<I>, alive: set<nat>, now: nat, slot: nat)
    requires WellFormed(q) && q.active != []
    ensures RecoverHead.requires(q, alive, now, slot)
    ensures var q', i := RecoverHead(q, alive, now, slot), q.active[0];
      && (Owned(q.records[i], q.owners, q.epochs, alive) ==>
           q'.active == q.active[1..] + [i] && q'.pending == q.pending)
      && (!Owned(q.records[i], q.owners, q.epochs, alive) ==>
           q'.active == q.active[1..] && q'.pending == q.pending + [i])
      && q'.owners == q.owners && q'.epochs == q.epochs
      && forall j :: j in q.active[1..] ==> j in q.records && j in q'.records && q'.records[j] == q.records[j]
  {
    RecoverKeeps(q, alive, now, slot);
    var i := q.active[0];
    assert q.active == [i] + q.active[1..];
    forall j | j in q.active[1..]
      ensures j in q.records && j != i
    {
      ListedItem(q, j);
      assert multiset(q.active)[j] == multiset([i])[j] + multiset(q.active[1..])[j];
    }
  }

  lemma FirstOfMany<I>(a: seq<I>, n: nat)
    requires 0 < n <= |a|
    ensures a[..n] == [a[0]] + a[1..n] && a[..n][1..] == a[1..n]
    ensures (a[1..] + [a[0]])[..n - 1] == a[1..n] && (a[1..] + [a[0]])[n - 1..] == a[n..] + [a[0]]
    ensures a[1..][..n - 1] == a[1..n] && a[1..][n - 1..] == a[n..]
    ensures forall j :: j in a[1..n] ==> j in a[1..]
  {
  }

  lemma SortedHead<I>(i: I, rest: seq<I>, q: Queue<I>, alive: set<nat>, owned: bool)
    requires i in q.records && forall j :: j in rest ==> j in q.records
    ensures Sorted([i] + rest, q, alive, owned) ==
            (if Owned(q.records[i], q.owners, q.epochs, alive) == owned then [i] else [])
            + Sorted(rest, q, alive, owned)
  {
    assert ([i] + rest)[1..] == rest;
  }

  lemma RecoverStep<I>(q: Queue<I>, n: nat, alive: set<nat>, now: nat, slot: nat, owned: bool)
    requires WellFormed(q) && 0 < n <= q.running
    ensures RecoverHead.requires(q, alive, now, slot)
    ensures forall i :: i in q.active[..n] ==> i in q.records
    ensures var q', mine := RecoverHead(q, alive, now, slot), Owned(q.records[q.active[0]], q.owners, q.epochs, alive);
      && WellFormed(q') && n - 1 <= q'.running
      && q'.pending == q.pending + (if mine then [] else [q.active[0]])
      && q'.active[n - 1..] == q.active[n..] + (if mine then [q.active[0]] else [])
      && (forall i :: i in q'.active[..n - 1] ==> i in q'.records)
      && Sorted(q.active[..n], q, alive, owned) ==
         (if mine == owned then [q.active[0]] else []) + Sorted(q'.active[..n - 1], q', alive, owned)
  {
    PendingRecorded(q);
    RecoverTurn(q, alive, now, slot);
    RecoverKeeps(q, alive, now, slot);
    var q', i, rest := RecoverHead(q, alive, now, slot), q.active[0], q.active[1..n];
    PendingRecorded(q');
    FirstOfMany(q.active, n);
    SortedSame(rest, q, q', alive, owned);
    SortedHead(i, rest, q, alive, owned);
  }

  lemma {:induction false} RecoveredActive<I>(q: Queue<I>, n: nat, alive: set<nat>, now: nat, slot: nat)
    requires WellFormed(q) && n <= q.running
    requires forall i :: i in q.active[..n] ==> i in q.records
    ensures Recover(q, n, alive, now, slot).active == q.active[n..] + Sorted(q.active[..n], q, alive, true)
    decreases n
  {
    if n != 0 {
      RecoverStep(q, n, alive, now, slot, true);
      var q' := RecoverHead(q, alive, now, slot);
      RecoveredActive(q', n - 1, alive, now, slot);
      Associative(q.active[n..],
                   if Owned(q.records[q.active[0]], q.owners, q.epochs, alive) then [q.active[0]] else [],
                   Sorted(q'.active[..n - 1], q', alive, true));
    }
  }

  lemma {:induction false} RecoveredPending<I>(q: Queue<I>, n: nat, alive: set<nat>, now: nat, slot: nat)
    requires WellFormed(q) && n <= q.running
    requires forall i :: i in q.active[..n] ==> i in q.records
    ensures Recover(q, n, alive, now, slot).pending == q.pending + Sorted(q.active[..n], q, alive, false)
    decreases n
  {
    if n != 0 {
      RecoverStep(q, n, alive, now, slot, false);
      var q' := RecoverHead(q, alive, now, slot);
      RecoveredPending(q', n - 1, alive, now, slot);
      Associative(q.pending,
                   if Owned(q.records[q.active[0]], q.owners, q.epochs, alive) then [] else [q.active[0]],
                   Sorted(q'.active[..n - 1], q', alive, false));
    }
  }

  /**
   A recovery pass inspects the first `n` active tasks once each, in order: the owned ones end up
   behind the others in the active list, the orphans behind the pending list.
   */
  lemma RecoverSplits<I>(q: Queue<I>, n: nat, alive: set<nat>, now: nat, slot: nat)
    requires WellFormed(q) && n <= q.running
    ensures forall i :: i in q.active[..n] ==> i in q.records
    ensures Recover(q, n, alive, now, slot).active == q.active[n..] + Sorted(q.active[..n], q, alive, true)
    ensures Recover(q, n, alive, now, slot).pending == q.pending + Sorted(q.active[..n], q, alive, false)
  {
    PendingRecorded(q);
    RecoveredActive(q, n, alive, now, slot);
    RecoveredPending(q, n, alive, now, slot);
  }

  lemma {:induction false} SortedExactly<I>(items: seq<I>, q: Queue<I>, alive: set<nat>, owned: bool, i: I)
    requires forall x :: x in items ==> x in q.records
    ensures i in Sorted(items, q, alive, owned) <==>
            i in items && Owned(q.records[i], q.owners, q.epochs, alive) == owned
  {
    if items != [] {
      SortedExactly(items[1..], q, alive, owned, i);
    }
  }

  lemma {:induction false} RecoverWellFormed<I>(q: Queue<I>, n: nat, alive: set<nat>, now: nat, slot: nat)
    requires WellFormed(q) && n <= q.running
    ensures WellFormed(Recover(q, n, alive, now, slot))
    decreases n
  {
    if n != 0 {
      RecoverKeeps(q, alive, now, slot);
      RecoverWellFormed(RecoverHead(q, alive, now, slot), n - 1, alive, now, slot);
    }
  }
}
