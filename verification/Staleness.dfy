/**
 What a namespace's generations say about an encoded key: whether a cached file is stale, whether
 it is the key a request would use now, and what an outside tool may conclude from the status view.
 */
module Staleness {
  import opened Bytes
  import opened GenerationKey
  import opened InvalidationLog

  /** The key a request for `logical` derives. */
  function Derived(name: Bytes, epoch: Bytes, log: Log, logical: Bytes): Bytes {
    Encode(name, Parts(epoch, Live(log, logical), logical))
  }

  /** The sweep's test: another epoch, or a generation below the live one. Foreign keys are never stale. */
  predicate IsStale(name: Bytes, epoch: Bytes, log: Log, key: Bytes) {
    match Decode(name, key)
    case NotOurs => false
    case Key(p) => p.epoch != epoch || p.generation < Live(log, p.logical)
  }

  /** REFRESH's test: exactly the live generation of this epoch. */
  predicate IsCurrent(name: Bytes, epoch: Bytes, log: Log, key: Bytes) {
    match Decode(name, key)
    case NotOurs => false
    case Key(p) => p.epoch == epoch && p.generation == Live(log, p.logical)
  }

  /** A derived key is current and not stale. */
  lemma DerivedIsCurrent(name: Bytes, epoch: Bytes, log: Log, logical: Bytes)
    requires ValidEpoch(epoch) && Serial(log) <= UINT64_MAX
    ensures IsCurrent(name, epoch, log, Derived(name, epoch, log, logical))
    ensures !IsStale(name, epoch, log, Derived(name, epoch, log, logical))
  {
    LiveBounds(log, logical);
    EncodeDecode(name, Parts(epoch, Live(log, logical), logical));
  }

  /** Staleness is permanent while the epoch lasts. */
  lemma StaleForever(name: Bytes, epoch: Bytes, log: Log, more: Log, key: Bytes)
    requires IsStale(name, epoch, log, key)
    ensures IsStale(name, epoch, log + more, key)
  {
    LiveMonotone(log, more, Decode(name, key).parts.logical);
  }

  /** A stale key is derived by no request, now or later, whatever key the request is for. */
  lemma StaleIsUnreachable(name: Bytes, epoch: Bytes, log: Log, more: Log, key: Bytes, logical: Bytes)
    requires ValidEpoch(epoch) && Serial(log + more) <= UINT64_MAX
    requires IsStale(name, epoch, log, key)
    ensures Derived(name, epoch, log + more, logical) != key
  {
    StaleForever(name, epoch, log, more, key);
    DerivedIsCurrent(name, epoch, log + more, logical);
  }

  /** After a covering invalidation a key no longer derives what it derived before. */
  lemma CoveredIsRenamed(name: Bytes, epoch: Bytes, log: Log, sel: Selector, more: Log, logical: Bytes)
    requires ValidEpoch(epoch) && Serial(log + [sel] + more) <= UINT64_MAX && Covers(sel, logical)
    ensures IsStale(name, epoch, log + [sel] + more, Derived(name, epoch, log, logical))
    ensures Derived(name, epoch, log + [sel] + more, logical) != Derived(name, epoch, log, logical)
  {
    LiveBounds(log, logical);
    LiveRaised(log, sel, more, logical);
    EncodeDecode(name, Parts(epoch, Live(log, logical), logical));
    DerivedIsCurrent(name, epoch, log + [sel] + more, logical);
  }

  /** A key that is not one of the namespace's is never stale, so no sweep touches it. */
  lemma ForeignIsNotStale(name: Bytes, epoch: Bytes, log: Log, key: Bytes)
    requires !WellFormed(name, key)
    ensures !IsStale(name, epoch, log, key) && !IsCurrent(name, epoch, log, key)
  {
  }

  /** In particular no key that another namespace writes. */
  lemma OtherNamespaceIsNotStale(name: Bytes, other: Bytes, epoch: Bytes, log: Log, parts: Parts)
    requires ValidName(name) && ValidName(other) && name != other && |parts.epoch| == EPOCH_LENGTH
    ensures !IsStale(name, epoch, log, Encode(other, parts)) && !IsCurrent(name, epoch, log, Encode(other, parts))
  {
    ForeignNamespace(other, name, parts);
  }

  /** Of its own keys the namespace calls stale those of other epochs and those below the live generation. */
  lemma OwnIsStaleExactly(name: Bytes, epoch: Bytes, log: Log, parts: Parts)
    requires ValidEpoch(parts.epoch) && parts.generation <= UINT64_MAX
    ensures IsStale(name, epoch, log, Encode(name, parts)) <==>
            parts.epoch != epoch || parts.generation < Live(log, parts.logical)
    ensures IsCurrent(name, epoch, log, Encode(name, parts)) <==>
            parts.epoch == epoch && parts.generation == Live(log, parts.logical)
  {
    EncodeDecode(name, parts);
  }

  // ---- the status view ----

  datatype View = View(epoch: Bytes, serial: nat, baseline: nat, rules: bool)

  datatype Verdict = Stale | Alive | Unknown

  /** What the operations manual tells a file scanner to conclude. */
  function Judge(view: View, file: Parts): Verdict {
    if file.epoch != view.epoch || file.generation < view.baseline then Stale
    else if !view.rules then Alive
    else Unknown
  }

  /** A view tells the truth about a log: no key is below its baseline, and without rules none is above. */
  ghost predicate Describes(view: View, epoch: Bytes, log: Log) {
    && view.epoch == epoch && view.serial == Serial(log)
    && (forall key: Bytes :: view.baseline <= Live(log, key))
    && (!view.rules ==> forall key: Bytes :: Live(log, key) == view.baseline)
  }

  /** The verdict never contradicts the sweep, and is only withheld when there are per-key rules. */
  lemma JudgeIsSound(name: Bytes, view: View, epoch: Bytes, log: Log, key: Bytes)
    requires Describes(view, epoch, log) && Decode(name, key).Key?
    ensures var verdict := Judge(view, Decode(name, key).parts);
      && (verdict == Stale ==> IsStale(name, epoch, log, key))
      && (verdict == Alive ==> !IsStale(name, epoch, log, key))
      && (verdict == Unknown ==> view.rules)
      // It is withheld neither from a file of another epoch nor from one below the baseline.
      && (Decode(name, key).parts.epoch != epoch || Decode(name, key).parts.generation < view.baseline ==>
            verdict == Stale)
  {
    var logical := Decode(name, key).parts.logical;
    assert view.baseline <= Live(log, logical);
  }
}
