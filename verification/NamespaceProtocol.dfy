/**
 One namespace over a whole run: requests snapshot a key and may write their file much later,
 purges and conditional REFRESH purges are accepted, a sweep judges files under the lock and
 unlinks them after dropping it, and a full restart begins a fresh epoch. The state of the
 generations is the log that `Generation.GenerationState` is proved to follow.
 */
module NamespaceProtocol {
  import opened Bytes
  import opened GenerationKey
  import opened InvalidationLog
  import opened Staleness

  datatype Request = Request(logical: Bytes, encoded: Bytes)

  datatype State = State(
    name: Bytes,
    epoch: Bytes,
    usedEpochs: set<Bytes>,       // the persistent markers of the state directory
    log: Log,
    requests: map<nat, Request>,  // snapshots held by running requests
    files: set<Bytes>,            // keys of the cache files on disk
    doomed: set<Bytes>,           // judged stale by a sweep, not unlinked yet
    decided: map<nat, Bytes>)     // entries REFRESH decided to invalidate

  datatype Step =
    | Begin(id: nat, logical: Bytes)                            // generation_key
    | Write(id: nat)                                            // a late cache write
    | Purge(key: Bytes, all: bool, broadened: bool)             // accepted unconditional invalidation
    | Decide(id: nat, file: Bytes)                              // generation_current in REFRESH
    | Commit(id: nat, logical: Bytes, broadened: bool)          // accepted conditional invalidation
    | Refuse(id: nat, logical: Bytes)                           // declined conditional invalidation
    | Judge(file: Bytes)                                        // generation_stale in the sweep
    | Unlink(file: Bytes)
    | Appear(file: Bytes)                                       // a foreign file shows up on disk
    | Restart(epoch: Bytes)

  predicate Init(s: State) {
    && ValidName(s.name) && ValidEpoch(s.epoch) && s.usedEpochs == {s.epoch}
    && s.log == [] && s.requests == map[] && s.doomed == {} && s.decided == map[]
  }

  /** The log entry of an accepted invalidation; memory pressure may broaden it. */
  function Entry(sel: Selector, broadened: bool): Selector {
    if broadened then Everything else sel
  }

  /** An accepted invalidation, conditional or not, whose log entry covers the key. */
  predicate Raises(step: Step, logical: Bytes) {
    match step
    case Purge(key, all, broadened) => Covers(Entry(Requested(key, all, false), broadened), logical)
    case Commit(_, key, broadened) => Covers(Entry(Requested(key, false, true), broadened), logical)
    case _ => false
  }

  /** What generation_invalidate compares when it is given an expected key. */
  predicate StillCurrent(s: State, expected: Bytes, logical: Bytes) {
    Decode(s.name, expected) == Key(Parts(s.epoch, Live(s.log, logical), logical))
  }

  predicate Enabled(s: State, step: Step) {
    match step
    case Begin(id, logical) => id !in s.requests
    case Write(id) => id in s.requests
    case Purge(key, all, broadened) => Serial(s.log) < UINT64_MAX
    case Decide(id, file) => id !in s.decided && IsCurrent(s.name, s.epoch, s.log, file)
    case Commit(id, logical, broadened) =>
      id in s.decided && Serial(s.log) < UINT64_MAX && StillCurrent(s, s.decided[id], logical)
    case Refuse(id, logical) => id in s.decided && !StillCurrent(s, s.decided[id], logical)
    case Judge(file) => file in s.files && IsStale(s.name, s.epoch, s.log, file)
    case Unlink(file) => file in s.doomed
    case Appear(file) => true
    case Restart(epoch) => ValidEpoch(epoch) && epoch !in s.usedEpochs
  }

  function Next(s: State, step: Step): State
    requires Enabled(s, step)
  {
    match step
    case Begin(id, logical) =>
      s.(requests := s.requests[id := Request(logical, Derived(s.name, s.epoch, s.log, logical))])
    case Write(id) => s.(files := s.files + {s.requests[id].encoded}, requests := s.requests - {id})
    case Purge(key, all, broadened) => s.(log := s.log + [Entry(Requested(key, all, false), broadened)])
    case Decide(id, file) => s.(decided := s.decided[id := file])
    case Commit(id, logical, broadened) =>
      s.(log := s.log + [Entry(Requested(logical, false, true), broadened)], decided := s.decided - {id})
    case Refuse(id, logical) => s.(decided := s.decided - {id})
    case Judge(file) => s.(doomed := s.doomed + {file})
    case Unlink(file) => s.(files := s.files - {file}, doomed := s.doomed - {file})
    case Appear(file) => s.(files := s.files + {file})
    // Workers and their state die with the old epoch; files and markers stay.
    case Restart(epoch) => State(s.name, epoch, s.usedEpochs + {epoch}, [], map[], s.files, {}, map[])
  }

  /** States s[0], s[1], ... joined by steps. */
  ghost predicate Follows(states: seq<State>, steps: seq<Step>) {
    && |states| == |steps| + 1
    && forall i {:trigger steps[i]} :: 0 <= i < |steps| ==>
         Enabled(states[i], steps[i]) && states[i + 1] == Next(states[i], steps[i])
  }

  ghost predicate Run(states: seq<State>, steps: seq<Step>) {
    Follows(states, steps) && Init(states[0])
  }

  // ---- invariants ----

  ghost predicate WellFormed(s: State) {
    && ValidName(s.name) && ValidEpoch(s.epoch) && s.epoch in s.usedEpochs
    && Serial(s.log) <= UINT64_MAX
    && (forall f :: f in s.doomed ==> IsStale(s.name, s.epoch, s.log, f))
  }

  lemma WellFormedStep(s: State, step: Step)
    requires WellFormed(s) && Enabled(s, step)
    ensures WellFormed(Next(s, step))
  {
    var s' := Next(s, step);
    if s'.log != s.log && s'.epoch == s.epoch {
      var entry := s'.log[|s.log|..];
      assert s'.log == s.log + entry;
      forall f | f in s'.doomed
        ensures IsStale(s'.name, s'.epoch, s'.log, f)
      {
        StaleForever(s.name, s.epoch, s.log, entry, f);
      }
    }
  }

  /**
   How a later state of the same run relates to an earlier one: the same epoch with a longer log,
   or a new epoch that the earlier state had not used.
   */
  ghost predicate Later(s: State, t: State) {
    && t.name == s.name && s.usedEpochs <= t.usedEpochs
    && if t.epoch == s.epoch then s.log <= t.log else t.epoch !in s.usedEpochs
  }

  lemma LaterStep(s: State, t: State, step: Step)
    requires WellFormed(s) && Later(s, t) && Enabled(t, step)
    ensures Later(s, Next(t, step))
  {
  }

  lemma {:induction false} FollowsKeeps(states: seq<State>, steps: seq<Step>, j: nat)
    requires Follows(states, steps) && WellFormed(states[0]) && j < |states|
    ensures WellFormed(states[j]) && Later(states[0], states[j])
  {
    if j > 0 {
      FollowsKeeps(states, steps, j - 1);
      WellFormedStep(states[j - 1], steps[j - 1]);
      LaterStep(states[0], states[j - 1], steps[j - 1]);
    }
  }

  lemma WellFormedRun(states: seq<State>, steps: seq<Step>, j: nat)
    requires Run(states, steps) && j < |states|
    ensures WellFormed(states[j])
  {
    FollowsKeeps(states, steps, j);
  }

  lemma LaterRun(states: seq<State>, steps: seq<Step>, i: nat, j: nat)
    requires Run(states, steps) && i <= j < |states|
    ensures WellFormed(states[i]) && WellFormed(states[j]) && Later(states[i], states[j])
  {
    WellFormedRun(states, steps, i);
    FollowsKeeps(states[i..], steps[i..], j - i);
  }

  // ---- what a request may reach ----

  /** The key a request arriving in state `s` asks the cache for. */
  function KeyFor(s: State, logical: Bytes): Bytes {
    Derived(s.name, s.epoch, s.log, logical)
  }

  /**
   Late writers are harmless: once a purge covering `logical` has been accepted in step `p`, no
   request of any later state, of this epoch or a later one, derives a key that any request derived
   for it before the purge.
   */
  lemma PurgedKeysStayUnreachable(states: seq<State>, steps: seq<Step>, i: nat, p: nat, j: nat, logical: Bytes)
    requires Run(states, steps) && i <= p < j < |states| && Raises(steps[p], logical)
    ensures KeyFor(states[j], logical) != KeyFor(states[i], logical)
  {
    LaterRun(states, steps, i, j);
    if states[j].epoch == states[i].epoch {
      RaisedBetween(states, steps, i, p, j, logical);
      DifferentGenerations(states[j], states[i], logical);
    } else {
      DifferentEpochs(states[j], states[i], logical);
    }
  }

  /** An epoch that is still current was current all along: a restart never returns to a used one. */
  lemma SameEpochBetween(states: seq<State>, steps: seq<Step>, i: nat, p: nat, j: nat)
    requires Run(states, steps) && i <= p <= j < |states| && states[i].epoch == states[j].epoch
    ensures states[p].epoch == states[i].epoch
  {
    LaterRun(states, steps, i, p);
    LaterRun(states, steps, p, j);
  }

  /** Within an epoch an accepted invalidation raises what it covers for good. */
  lemma RaisedBetween(states: seq<State>, steps: seq<Step>, i: nat, p: nat, j: nat, logical: Bytes)
    requires Run(states, steps) && i <= p < j < |states| && Raises(steps[p], logical)
    requires states[i].epoch == states[j].epoch
    ensures Live(states[i].log, logical) < Live(states[j].log, logical)
  {
    SameEpochBetween(states, steps, i, p, j);
    SameEpochBetween(states, steps, i, p + 1, j);
    LaterRun(states, steps, i, p);
    LaterRun(states, steps, p + 1, j);
    var first, before, after, last := states[i].log, states[p].log, states[p + 1].log, states[j].log;
    var earlier, sel, more := before[|first|..], after[|before|], last[|after|..];
    assert before == first + earlier && last == before + [sel] + more;
    LiveMonotone(first, earlier, logical);
    LiveRaised(before, sel, more, logical);
  }

  lemma DifferentGenerations(t: State, s: State, logical: Bytes)
    requires WellFormed(t) && WellFormed(s) && t.name == s.name && t.epoch == s.epoch
    requires Live(t.log, logical) != Live(s.log, logical)
    ensures KeyFor(t, logical) != KeyFor(s, logical)
  {
    LiveBounds(t.log, logical);
    LiveBounds(s.log, logical);
    if KeyFor(t, logical) == KeyFor(s, logical) {
      EncodeInjective(t.name, Parts(t.epoch, Live(t.log, logical), logical),
                      Parts(s.epoch, Live(s.log, logical), logical));
    }
  }

  lemma DifferentEpochs(t: State, s: State, logical: Bytes)
    requires WellFormed(t) && WellFormed(s) && t.name == s.name && t.epoch != s.epoch
    ensures KeyFor(t, logical) != KeyFor(s, logical)
  {
    LiveBounds(t.log, logical);
    LiveBounds(s.log, logical);
    if KeyFor(t, logical) == KeyFor(s, logical) {
      EncodeInjective(t.name, Parts(t.epoch, Live(t.log, logical), logical),
                      Parts(s.epoch, Live(s.log, logical), logical));
    }
  }

  // ---- late writes ----

  /** Only its own beginning sets a request's snapshot. */
  lemma SnapshotAfter(s: State, step: Step, id: nat)
    requires Enabled(s, step) && id in Next(s, step).requests
    ensures if step.Begin? && step.id == id
            then Next(s, step).requests[id] == Request(step.logical, KeyFor(s, step.logical))
            else id in s.requests && Next(s, step).requests[id] == s.requests[id]
  {
  }

  /** A request's snapshot does not change while the request runs, whatever is purged meanwhile. */
  lemma {:induction false} SnapshotKept(states: seq<State>, steps: seq<Step>, b: nat, w: nat, id: nat, logical: Bytes)
    requires Run(states, steps) && b < w < |states| && steps[b] == Begin(id, logical)
    requires forall k :: b < k <= w ==> id in states[k].requests
    ensures states[w].requests[id] == Request(logical, KeyFor(states[b], logical))
  {
    var before, step := states[w - 1], steps[w - 1];
    assert Enabled(before, step) && states[w] == Next(before, step);
    SnapshotAfter(before, step, id);
    if b + 1 < w {
      SnapshotKept(states, steps, b, w - 1, id, logical);
    }
  }

  /**
   The file a request leaves behind is never served after a purge that covers its key was accepted
   while the request ran, even when the write happens after the purge.
   */
  lemma LateWriteIsNeverServed(states: seq<State>, steps: seq<Step>, b: nat, p: nat, w: nat, j: nat, id: nat,
                               logical: Bytes)
    requires Run(states, steps) && b < p < |steps| && b < w < |steps| && p < j < |states|
    requires steps[b] == Begin(id, logical) && steps[w] == Write(id)
    requires forall k :: b < k <= w ==> id in states[k].requests
    requires Raises(steps[p], logical)
    ensures KeyFor(states[b], logical) in states[w + 1].files
    ensures KeyFor(states[j], logical) != KeyFor(states[b], logical)
  {
    SnapshotKept(states, steps, b, w, id, logical);
    PurgedKeysStayUnreachable(states, steps, b, p, j, logical);
  }

  // ---- the sweep ----

  /** The file was there before the run, or appeared without a request writing it. */
  ghost predicate Foreign(states: seq<State>, steps: seq<Step>, j: nat, file: Bytes)
    requires |states| == |steps| + 1 && j <= |steps|
  {
    file in states[0].files || exists a: nat :: a < j && steps[a] == Appear(file)
  }

  /** Some request of the run, up to state `j`, derived this key. */
  ghost predicate Asked(states: seq<State>, j: nat, file: Bytes) {
    exists i: nat, logical: Bytes :: i <= j && i < |states| && file == KeyFor(states[i], logical)
  }

  /** Where the files on disk come from. */
  ghost predicate Origins(states: seq<State>, steps: seq<Step>, j: nat)
    requires |states| == |steps| + 1 && j <= |steps|
  {
    && (forall id :: id in states[j].requests ==> Asked(states, j, states[j].requests[id].encoded))
    && (forall f :: f in states[j].files ==> Foreign(states, steps, j, f) || Asked(states, j, f))
    && states[j].doomed <= states[j].files
  }

  lemma AskedHere(states: seq<State>, j: nat, logical: Bytes)
    requires j < |states|
    ensures Asked(states, j, KeyFor(states[j], logical))
  {
  }

  lemma OriginsPersist(states: seq<State>, steps: seq<Step>, j: nat, file: Bytes)
    requires |states| == |steps| + 1 && j < |steps|
    ensures Foreign(states, steps, j, file) ==> Foreign(states, steps, j + 1, file)
    ensures Asked(states, j, file) ==> Asked(states, j + 1, file)
  {
  }

  lemma FilesAfter(s: State, step: Step, file: Bytes)
    requires Enabled(s, step) && file in Next(s, step).files
    ensures file in s.files || step == Appear(file) || (step.Write? && file == s.requests[step.id].encoded)
  {
  }

  lemma {:induction false} FilesHaveOrigins(states: seq<State>, steps: seq<Step>, j: nat)
    requires Run(states, steps) && j < |states|
    ensures Origins(states, steps, j)
  {
    if j > 0 {
      FilesHaveOrigins(states, steps, j - 1);
      OriginsStep(states, steps, j - 1);
    }
  }

  lemma OriginsStep(states: seq<State>, steps: seq<Step>, j: nat)
    requires |states| == |steps| + 1 && j < |steps| && Origins(states, steps, j)
    requires Enabled(states[j], steps[j]) && states[j + 1] == Next(states[j], steps[j])
    ensures Origins(states, steps, j + 1)
  {
    var s, t, step := states[j], states[j + 1], steps[j];
    forall id | id in t.requests
      ensures Asked(states, j + 1, t.requests[id].encoded)
    {
      SnapshotAfter(s, step, id);
      if step.Begin? && step.id == id {
        AskedHere(states, j, step.logical);
      }
      OriginsPersist(states, steps, j, t.requests[id].encoded);
    }
    forall f | f in t.files
      ensures Foreign(states, steps, j + 1, f) || Asked(states, j + 1, f)
    {
      FilesAfter(s, step, f);
      OriginsPersist(states, steps, j, f);
    }
  }

  /** Whatever a request derived, once stale, is out of reach for good, restarts included. */
  lemma AskedIsNotAskedAgain(states: seq<State>, steps: seq<Step>, u: nat, j: nat, file: Bytes, logical: Bytes)
    requires Run(states, steps) && u <= j < |states| && Asked(states, u, file)
    requires IsStale(states[u].name, states[u].epoch, states[u].log, file)
    ensures KeyFor(states[j], logical) != file
  {
    var i: nat, l :| i <= u && i < |states| && file == KeyFor(states[i], l);
    LaterRun(states, steps, i, u);
    LaterRun(states, steps, u, j);
    SnapshotStaysStale(states[i], states[u], states[j], l, logical);
  }

  lemma SnapshotStaysStale(s: State, u: State, t: State, l: Bytes, logical: Bytes)
    requires WellFormed(s) && WellFormed(u) && WellFormed(t) && Later(s, u) && Later(u, t)
    requires IsStale(u.name, u.epoch, u.log, KeyFor(s, l))
    ensures KeyFor(t, logical) != KeyFor(s, l)
  {
    LiveBounds(s.log, l);
    EncodeDecode(s.name, Parts(s.epoch, Live(s.log, l), l));
    if KeyFor(t, logical) == KeyFor(s, l) {
      ComesBackOnly(u, t, KeyFor(s, l), logical);
    }
  }

  /** A sweep marks and unlinks only keys that carry the namespace's own name: those of others are left alone. */
  lemma UnlinksOnlyOwn(states: seq<State>, steps: seq<Step>, u: nat, file: Bytes)
    requires Run(states, steps) && u < |states|
    requires file in states[u].doomed || (u < |steps| && steps[u] == Unlink(file))
    ensures Decode(states[u].name, file).Key?
    ensures forall other: Bytes, parts: Parts ::
              ValidName(other) && other != states[u].name && |parts.epoch| == EPOCH_LENGTH ==>
                file != Encode(other, parts)
  {
    var s := states[u];
    WellFormedRun(states, steps, u);
    assert file in s.doomed by {
      assert u < |steps| ==> Enabled(s, steps[u]);
    }
    if !GenerationKey.WellFormed(s.name, file) {
      ForeignIsNotStale(s.name, s.epoch, s.log, file);
    }
    forall other: Bytes, parts: Parts | ValidName(other) && other != s.name && |parts.epoch| == EPOCH_LENGTH
      ensures file != Encode(other, parts)
    {
      OtherNamespaceIsNotStale(s.name, other, s.epoch, s.log, parts);
    }
  }

  /**
   On the module's own files the sweep's test is exact: a key that some request derived is stale exactly when
   its logical key derives another one now.
   */
  lemma StaleExactlyIfRenamed(states: seq<State>, steps: seq<Step>, i: nat, j: nat, logical: Bytes)
    requires Run(states, steps) && i <= j < |states|
    ensures IsStale(states[j].name, states[j].epoch, states[j].log, KeyFor(states[i], logical)) <==>
            KeyFor(states[j], logical) != KeyFor(states[i], logical)
  {
    var s, t := states[i], states[j];
    LaterRun(states, steps, i, j);
    LiveBounds(s.log, logical);
    LiveBounds(t.log, logical);
    var was := Parts(s.epoch, Live(s.log, logical), logical);
    OwnIsStaleExactly(t.name, t.epoch, t.log, was);
    if t.epoch == s.epoch {
      var more := t.log[|s.log|..];
      assert t.log == s.log + more;
      LiveMonotone(s.log, more, logical);
    }
    if KeyFor(t, logical) == KeyFor(s, logical) {
      EncodeInjective(s.name, Parts(t.epoch, Live(t.log, logical), logical), was);
    }
  }

  /** What a sweep unlinks after dropping the lock is out of reach of every later request, if a request wrote it. */
  lemma UnlinkIsSafe(states: seq<State>, steps: seq<Step>, u: nat, j: nat, logical: Bytes)
    requires Run(states, steps) && u < |steps| && u <= j < |states|
    requires steps[u].Unlink? && !Foreign(states, steps, u, steps[u].file)
    ensures KeyFor(states[j], logical) != steps[u].file
  {
    WellFormedRun(states, steps, u);
    FilesHaveOrigins(states, steps, u);
    AskedIsNotAskedAgain(states, steps, u, j, steps[u].file, logical);
  }

  /** Until the next restart that holds of every file a sweep unlinks, whoever wrote it. */
  lemma UnlinkIsSafeInEpoch(states: seq<State>, steps: seq<Step>, u: nat, j: nat, logical: Bytes)
    requires Run(states, steps) && u < |steps| && u <= j < |states|
    requires steps[u].Unlink? && states[j].epoch == states[u].epoch
    ensures KeyFor(states[j], logical) != steps[u].file
  {
    LaterRun(states, steps, u, j);
    if KeyFor(states[j], logical) == steps[u].file {
      ComesBackOnly(states[u], states[j], steps[u].file, logical);
    }
  }

  // ---- stale files that come back ----

  /** The file is written as the module would write it, with an epoch that no restart has used yet. */
  predicate MayComeBack(s: State, file: Bytes) {
    match Decode(s.name, file)
    case NotOurs => false
    case Key(p) => p.epoch !in s.usedEpochs && p.generation >= 1 && file == Encode(s.name, p)
  }

  /** In some continuation of `s` a request asks for the file. */
  ghost predicate ComesBack(s: State, file: Bytes) {
    exists states: seq<State>, steps: seq<Step> :: Continues(s, states, steps, file)
  }

  ghost predicate Continues(s: State, states: seq<State>, steps: seq<Step>, file: Bytes) {
    Follows(states, steps) && states[0] == s && exists logical: Bytes :: KeyFor(states[|steps|], logical) == file
  }

  lemma ComesBackOnly(s: State, t: State, file: Bytes, logical: Bytes)
    requires WellFormed(s) && WellFormed(t) && Later(s, t)
    requires IsStale(s.name, s.epoch, s.log, file) && KeyFor(t, logical) == file
    ensures MayComeBack(s, file) && t.epoch != s.epoch
  {
    LiveBounds(t.log, logical);
    EncodeDecode(t.name, Parts(t.epoch, Live(t.log, logical), logical));
    if t.epoch == s.epoch {
      var more := t.log[|s.log|..];
      assert t.log == s.log + more;
      StaleIsUnreachable(s.name, s.epoch, s.log, more, file, logical);
    }
  }

  /** A restart and then purges of everything reach any generation in a fresh epoch. */
  lemma {:induction false} AnyGeneration(s: State, epoch: Bytes, generation: nat)
    returns (states: seq<State>, steps: seq<Step>)
    requires ValidEpoch(epoch) && epoch !in s.usedEpochs && 1 <= generation <= UINT64_MAX
    ensures Follows(states, steps) && states[0] == s
    ensures states[|steps|].name == s.name && states[|steps|].epoch == epoch
    ensures Serial(states[|steps|].log) == generation
    ensures forall key: Bytes :: Live(states[|steps|].log, key) == generation
  {
    if generation == 1 {
      states, steps := [s, Next(s, Restart(epoch))], [Restart(epoch)];
    } else {
      states, steps := AnyGeneration(s, epoch, generation - 1);
      var last, step := states[|steps|], Purge([], true, false);
      var states', steps' := states + [Next(last, step)], steps + [step];
      forall i | 0 <= i < |steps'|
        ensures Enabled(states'[i], steps'[i]) && states'[i + 1] == Next(states'[i], steps'[i])
      {
        assert i < |steps| ==> Enabled(states[i], steps[i]);
      }
      forall key: Bytes
        ensures Live(Next(last, step).log, key) == generation
      {
        LiveAfter(last.log, Everything, key);
      }
      states, steps := states', steps';
    }
  }

  /**
   A stale file is asked for again exactly if it carries, in the module's own spelling, an epoch that no
   restart has used yet and a generation of at least 1: a later restart may pick that epoch.
   */
  lemma StaleComesBackExactly(s: State, file: Bytes)
    requires WellFormed(s) && IsStale(s.name, s.epoch, s.log, file)
    ensures ComesBack(s, file) <==> MayComeBack(s, file)
  {
    if ComesBack(s, file) {
      var states: seq<State>, steps: seq<Step> :| Continues(s, states, steps, file);
      var logical: Bytes :| KeyFor(states[|steps|], logical) == file;
      FollowsKeeps(states, steps, |steps|);
      ComesBackOnly(s, states[|steps|], file, logical);
    }
    if MayComeBack(s, file) {
      var p := Decode(s.name, file).parts;
      DecodeEncode(s.name, file);
      var states, steps := AnyGeneration(s, p.epoch, p.generation);
      assert KeyFor(states[|steps|], p.logical) == file;
      assert Continues(s, states, steps, file);
    }
  }

  // ---- conditional invalidation ----

  /** Without a restart or a covering invalidation a key keeps its generation. */
  lemma {:induction false} UncoveredKeeps(states: seq<State>, steps: seq<Step>, i: nat, j: nat, logical: Bytes)
    requires Run(states, steps) && i <= j < |states| && states[i].epoch == states[j].epoch
    requires forall p :: i <= p < j ==> !Raises(steps[p], logical)
    ensures Live(states[j].log, logical) == Live(states[i].log, logical)
  {
    if i < j {
      var s, step := states[j - 1], steps[j - 1];
      assert Enabled(s, step) && states[j] == Next(s, step) && !Raises(step, logical);
      SameEpochBetween(states, steps, i, j - 1, j);
      WellFormedRun(states, steps, j - 1);
      KeepsGeneration(s, step, logical);
      UncoveredKeeps(states, steps, i, j - 1, logical);
    }
  }

  lemma KeepsGeneration(s: State, step: Step, logical: Bytes)
    requires WellFormed(s) && Enabled(s, step) && Next(s, step).epoch == s.epoch && !Raises(step, logical)
    ensures Live(Next(s, step).log, logical) == Live(s.log, logical)
  {
    match step
    case Purge(key, all, broadened) => LiveAfter(s.log, Entry(Requested(key, all, false), broadened), logical);
    case Commit(_, key, broadened) => LiveAfter(s.log, Entry(Requested(key, false, true), broadened), logical);
    case _ =>
  }

  /**
   The conditional invalidation is a compare-and-swap over whole runs: what REFRESH decided about a file is
   still accepted exactly for the file's own logical key, in the epoch of the decision, and if no covering
   invalidation, conditional or not, was accepted in between.
   */
  lemma AcceptedExactlyIfUncovered(states: seq<State>, steps: seq<Step>, d: nat, j: nat, logical: Bytes)
    requires Run(states, steps) && d < j < |states| && steps[d].Decide?
    ensures Decode(states[d].name, steps[d].file).Key?
    ensures StillCurrent(states[j], steps[d].file, logical) <==>
            && logical == Decode(states[d].name, steps[d].file).parts.logical
            && states[j].epoch == states[d].epoch
            && forall p :: d < p < j ==> !Raises(steps[p], logical)
  {
    assert Enabled(states[d], steps[d]);
    LaterRun(states, steps, d, j);
    if states[j].epoch == states[d].epoch {
      if p: nat :| d < p < j && Raises(steps[p], logical) {
        RaisedBetween(states, steps, d, p, j, logical);
      } else {
        UncoveredKeeps(states, steps, d, j, logical);
      }
    }
  }

  /** In particular a decision observed before a covering invalidation can only be refused afterwards. */
  lemma OutdatedDecisionIsRefused(states: seq<State>, steps: seq<Step>, d: nat, p: nat, j: nat, logical: Bytes)
    requires Run(states, steps) && d < p < j < |states|
    requires steps[d].Decide? && Decode(states[d].name, steps[d].file).parts.logical == logical
    requires Raises(steps[p], logical)
    ensures forall l: Bytes :: !StillCurrent(states[j], steps[d].file, l)
  {
    forall l: Bytes
      ensures !StillCurrent(states[j], steps[d].file, l)
    {
      AcceptedExactlyIfUncovered(states, steps, d, j, l);
    }
  }

  /** An accepted conditional invalidation gives its key a new generation, the next serial. */
  lemma CommitRaisesItsKey(s: State, id: nat, logical: Bytes, broadened: bool)
    requires Enabled(s, Commit(id, logical, broadened))
    ensures Live(Next(s, Commit(id, logical, broadened)).log, logical) == Serial(s.log) + 1
  {
    LiveAfter(s.log, Entry(Requested(logical, false, true), broadened), logical);
  }

  /**
   It leaves every other key alone exactly when the rule could be stored and the logical key is not
   empty: an empty key has no rule of its own, so its conditional invalidation resets the namespace.
   */
  lemma CommitRaisesOnlyItsKey(s: State, id: nat, logical: Bytes, broadened: bool)
    requires Enabled(s, Commit(id, logical, broadened))
    ensures (forall k: Bytes :: k != logical ==> Live(Next(s, Commit(id, logical, broadened)).log, k) == Live(s.log, k))
       <==> !broadened && logical != []
  {
    var entry := Entry(Requested(logical, false, true), broadened);
    var log' := Next(s, Commit(id, logical, broadened)).log;
    forall k: Bytes
      ensures Live(log', k) == if Covers(entry, k) then Serial(s.log) + 1 else Live(s.log, k)
    {
      LiveAfter(s.log, entry, k);
    }
    if broadened || logical == [] {
      var other: Bytes := logical + ['x'];
      LiveBounds(s.log, other);
      assert Live(log', other) != Live(s.log, other);
    }
  }
}
