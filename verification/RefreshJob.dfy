/**
 The timer-driven life of one REFRESH request: scan slices, one probe at a time under the global credit
 limit, the conditional invalidation a probe may decide, and the reply with the cursor to go on from.
 */
module RefreshJob {
  import opened Bytes
  import opened Sequences
  import opened HashOrder
  import opened PageSelection
  import opened RefreshPage
  import RefreshPagination
  import ProbeCredits
  import GenerationKey
  import opened Paths
  import W = DirectoryWalk
  import opened Staleness

  datatype ScanState = Scanning | Complete | Broken | TimedOut

  // What a slice of the scan brings: the files it visited with what reading them gave, and how it ended.
  datatype Slice = Slice(files: seq<(Bytes, FileKey)>, outcome: SliceEnd)

  datatype SliceEnd = Unfinished | Finished | Errors | Late

  // How starting a probe goes: the credit lock, the liveness oracle, and the allocations it needs.
  datatype ProbeLuck = ProbeLuck(acquired: bool, alive: set<nat>, memory: bool)

  datatype Probed = Started | Skipped | Waiting | NoMemory

  // What the queue answers to the conditional invalidation of a decision.
  datatype Enqueued = Taken | Busy | Refused | Faulty

  // The reply's arithmetic.
  datatype Reply =
    | ScanFailed
    | Report(scanComplete: bool, complete: bool, timedOut: bool, undispatched: nat, nextCursor: Bytes, rows: seq<Entry>)

  // What one timer event finds: the deadline (or a shutdown), another request's batch in this worker,
  // memory for the scan, and the outcomes of what the step may start.
  datatype Event = Event(expired: bool, occupied: bool, memory: bool, slice: Slice, luck: ProbeLuck, queue: Enqueued)

  datatype Action = Wait | Replied(reply: Reply) | Aborted

  datatype Phase = Idle | NoRoom | Ending | Working

  /** The entry's key can be probed as a request: the profile's prefix, then a path without odd bytes. */
  predicate Probeable(logical: Bytes, prefix: Bytes, etag: Bytes) {
    && |logical| > |prefix| && logical[..|prefix|] == prefix && logical[|prefix|] == '/'
    && (forall i :: |prefix| <= i < |logical| ==> logical[i] > ' ' && logical[i] != '#' && logical[i] as int != 127)
    && (forall i :: 0 <= i < |etag| ==> etag[i] >= ' ' && etag[i] as int != 127)
  }

  /**
   What can be sent: the configured prefix, then a path of visible bytes without a fragment, and a tag without
   control bytes. So neither ends its line in the request.
   */
  lemma ProbeableMeans(logical: Bytes, prefix: Bytes, etag: Bytes)
    ensures Probeable(logical, prefix, etag) <==>
            && prefix + ['/'] <= logical
            && (forall c :: c in logical[|prefix|..] ==> 33 <= c as int <= 255 && c as int != 35 && c as int != 127)
            && (forall c :: c in etag ==> 32 <= c as int <= 255 && c as int != 127)
  {
    if prefix + ['/'] <= logical {
      var path := logical[|prefix|..];
      assert forall i :: |prefix| <= i < |logical| ==> logical[i] == path[i - |prefix|];
      assert forall i :: |prefix| <= i < |logical| ==> logical[i] in path;
    }
    assert forall i :: 0 <= i < |etag| ==> etag[i] in etag;
  }

  method IsProbeable(logical: Bytes, prefix: Bytes, etag: Bytes) returns (r: bool)
    ensures r <==> Probeable(logical, prefix, etag)
  {
    if |logical| <= |prefix| || logical[..|prefix|] != prefix || logical[|prefix|] != '/' {
      return false;
    }
    var i := |prefix|;
    while i < |logical|
      invariant |prefix| <= i <= |logical|
      invariant forall j :: |prefix| <= j < i ==> logical[j] > ' ' && logical[j] != '#' && logical[j] as int != 127
    {
      if logical[i] <= ' ' || logical[i] == '#' || logical[i] as int == 127 {
        return false;
      }
      i := i + 1;
    }
    i := 0;
    while i < |etag|
      invariant i <= |etag| && forall j :: 0 <= j < i ==> etag[j] >= ' ' && etag[j] as int != 127
    {
      if etag[i] < ' ' || etag[i] as int == 127 {
        return false;
      }
      i := i + 1;
    }
    return true;
  }

  // The part of a job that a timer event works on.
  datatype Work = Work(entries: seq<Entry>, position: nat, active: bool, decision: bool) {
    /** The current entry gets its result. */
    function Settled(result: Outcome): Work
      requires position < |entries|
    {
      this.(entries := entries[position := entries[position].(result := result)], decision := false)
    }

    function Moved(): Work {
      this.(position := position + 1)
    }

    /** The probe has ended; Pending leaves a decision to carry out. */
    function Noted(status: nat, result: Outcome): Work
      requires position < |entries|
    {
      var entry := entries[position].(status := status, result := result);
      Work(entries[position := entry], position, false, result == Pending)
    }
  }

  /** What the queue's answer to the conditional invalidation makes of the entry. */
  function Consequence(current: bool, reply: Enqueued): Outcome {
    if !current || reply == Refused then Replaced
    else if reply == Taken then Invalidated
    else Failed
  }

  /**
   One event's work on the current entry: carry out a decision, move past a finished entry, skip an entry
   that cannot be probed, or start a probe if a credit is free.
   */
  function Worked(w: Work, verdict: Outcome, queue: Enqueued, free: bool, memory: bool): Work
    requires w.position < |w.entries|
  {
    if w.decision then Carried(w, verdict != Replaced, queue)
    else if w.entries[w.position].result != Pending then w.Moved()
    else Tried(w, verdict, free, memory)
  }

  function Carried(w: Work, current: bool, queue: Enqueued): Work
    requires w.position < |w.entries|
  {
    if current && queue == Busy then w else w.Settled(Consequence(current, queue)).Moved()
  }

  function Tried(w: Work, verdict: Outcome, free: bool, memory: bool): Work
    requires w.position < |w.entries|
  {
    if verdict != Pending then w.Settled(verdict).Moved()
    else if !free then w
    else if !memory then w.Settled(Failed).Moved()
    else w.(active := true)
  }

  /** What an upstream status means for the entry; Pending stands for a decision to invalidate. */
  function Meaning(status: nat, guarded: bool): Outcome {
    if guarded then SkippedProfile
    else if status == 304 then Kept
    else if status == 200 || status == 404 || status == 410 then Pending
    else if status == 0 then Transport
    else UpstreamStatus
  }

  /** Each status has its own result: 304 keeps the file, 200, 404 and 410 call for a purge, no answer is an error. */
  lemma StatusMeans(w: Work, status: nat, guarded: bool)
    requires w.active && w.position < |w.entries|
    ensures var w' := After(w, ProbeEnd(status, guarded)); var e := w'.entries[w.position];
      && w'.position == w.position && !w'.active && e.status == status && |w'.entries| == |w.entries|
      && (w'.decision <==> !guarded && status in {200, 404, 410})
      && (e.result == Kept <==> !guarded && status == 304)
      && (e.result == Transport <==> !guarded && status == 0)
      && (e.result == UpstreamStatus <==> !guarded && status !in {0, 200, 304, 404, 410})
      && (e.result == SkippedProfile <==> guarded)
      && forall i :: 0 <= i < |w.entries| && i != w.position ==> w'.entries[i] == w.entries[i]
  {
  }

  /** What a timer event does with the current entry, case by case. */
  lemma TurnMeans(w: Work, verdict: Outcome, queue: Enqueued, free: bool, memory: bool)
    requires w.position < |w.entries| && !w.active
    ensures var w' := After(w, Turn(verdict, queue, free, memory)); var was := w.entries[w.position].result;
      var e := w'.entries[w.position];
      // A probe starts only for a pending entry that can be probed, with a credit and memory.
      && (w'.active <==> !w.decision && was == Pending && verdict == Pending && free && memory)
      // The job stays at the entry while it is probed, and while the credit or the queue is waited for.
      && (w'.position == w.position <==>
            if w.decision then verdict != Replaced && queue == Busy
            else was == Pending && verdict == Pending && (!free || memory))
      && w'.position <= w.position + 1
      && (w.decision && w'.position > w.position ==>
            e.result == if verdict == Replaced || queue == Refused then Replaced
                        else if queue == Taken then Invalidated else Failed)
      && (!w.decision && was == Pending && w'.position > w.position ==>
            e.result == if verdict == Pending then Failed else verdict)
      && forall i :: 0 <= i < |w.entries| && i != w.position ==> w'.entries[i] == w.entries[i]
  {
  }

  // What happens to a job once its scan is complete: a timer event that finds it ready, or the end of a probe.
  datatype Moment =
    | Turn(verdict: Outcome, queue: Enqueued, free: bool, memory: bool)
    | ProbeEnd(status: nat, guarded: bool)

  function After(w: Work, m: Moment): Work {
    if w.position >= |w.entries| then w
    else
      match m
      case Turn(verdict, queue, free, memory) => if w.active then w else Worked(w, verdict, queue, free, memory)
      case ProbeEnd(status, guarded) => if w.active then w.Noted(status, Meaning(status, guarded)) else w
  }

  /** A job's history from its completed scan on. */
  ghost predicate History(ws: seq<Work>, ms: seq<Moment>) {
    && |ws| == |ms| + 1
    && AllPending(ws[0].entries) && ws[0].position == 0 && !ws[0].active && !ws[0].decision
    && forall n {:trigger ms[n]} :: 0 <= n < |ms| ==>
         ws[n + 1] == After(ws[n], ms[n]) && (ms[n].Turn? ==> ms[n].verdict != Invalidated)
  }

  predicate Sound(w: Work) {
    && (w.active || w.decision ==> w.position < |w.entries|)
    && forall k :: w.position <= k < |w.entries| ==> w.entries[k].result != Invalidated
  }

  lemma SoundAfter(w: Work, m: Moment)
    requires Sound(w)
    ensures Sound(After(w, m))
  {
  }

  /** A turn invalidates only the current entry, by its decision, taken by the queue while the key is current. */
  lemma EntryAfter(w: Work, m: Moment, i: nat)
    requires Sound(w) && (m.Turn? ==> m.verdict != Invalidated)
    requires i < |After(w, m).entries| && After(w, m).entries[i].result == Invalidated
    ensures i < |w.entries| && After(w, m).entries[i].status == w.entries[i].status
    ensures w.entries[i].result == Invalidated ||
            (i == w.position && w.decision && m.Turn? && m.queue == Taken && m.verdict != Replaced)
  {
  }

  lemma DecisionAfter(w: Work, m: Moment)
    requires Sound(w) && After(w, m).decision
    ensures var w' := After(w, m);
      && w'.position == w.position < |w.entries| == |w'.entries|
      && ((w.decision && w'.entries[w.position].status == w.entries[w.position].status) ||
          (m.ProbeEnd? && w.active && Meaning(m.status, m.guarded) == Pending &&
           w'.entries[w.position].status == m.status))
  {
  }

  /** The probe of entry `i` ended with this status before moment `n`. */
  ghost predicate Reported(ws: seq<Work>, ms: seq<Moment>, n: nat, i: nat, status: nat)
    requires |ws| == |ms| + 1 && n <= |ms|
  {
    exists r: nat {:trigger ms[r]} :: r < n && ws[r].active && ws[r].position == i
      && ms[r].ProbeEnd? && ms[r].status == status && Meaning(status, ms[r].guarded) == Pending
  }

  /** Before moment `n` the queue took the conditional invalidation of entry `i`, whose key was current. */
  ghost predicate TakenBefore(ws: seq<Work>, ms: seq<Moment>, n: nat, i: nat)
    requires |ws| == |ms| + 1 && n <= |ms|
  {
    exists t: nat {:trigger ms[t]} :: t < n && ws[t].decision && ws[t].position == i
      && ms[t].Turn? && ms[t].queue == Taken && ms[t].verdict != Replaced
  }

  lemma {:induction false} HistorySound(ws: seq<Work>, ms: seq<Moment>, n: nat)
    requires History(ws, ms) && n < |ws|
    ensures Sound(ws[n])
  {
    if n > 0 {
      HistorySound(ws, ms, n - 1);
      SoundAfter(ws[n - 1], ms[n - 1]);
    }
  }

  lemma {:induction false} DecisionReported(ws: seq<Work>, ms: seq<Moment>, n: nat)
    requires History(ws, ms) && n < |ws| && ws[n].decision
    ensures ws[n].position < |ws[n].entries|
    ensures Reported(ws, ms, n, ws[n].position, ws[n].entries[ws[n].position].status)
  {
    HistorySound(ws, ms, n);
    if n > 0 {
      var w, m := ws[n - 1], ms[n - 1];
      assert ws[n] == After(w, m);
      HistorySound(ws, ms, n - 1);
      DecisionAfter(w, m);
      if w.decision {
        DecisionReported(ws, ms, n - 1);
      }
    }
  }

  /**
   An entry is reported as invalidated only if its probe ended with status 200, 404 or 410, which the entry
   shows, and the queue then took the conditional invalidation while the key was still current.
   */
  lemma {:induction false} InvalidatedByDecision(ws: seq<Work>, ms: seq<Moment>, n: nat, i: nat)
    requires History(ws, ms) && n < |ws| && i < |ws[n].entries| && ws[n].entries[i].result == Invalidated
    ensures ws[n].entries[i].status in {200, 404, 410}
    ensures Reported(ws, ms, n, i, ws[n].entries[i].status) && TakenBefore(ws, ms, n, i)
  {
    assert n > 0;
    var w, m := ws[n - 1], ms[n - 1];
    assert ws[n] == After(w, m);
    HistorySound(ws, ms, n - 1);
    EntryAfter(w, m, i);
    if w.entries[i].result == Invalidated {
      InvalidatedByDecision(ws, ms, n - 1, i);
    } else {
      DecisionReported(ws, ms, n - 1);
    }
  }

  /** Entries before `position` are done and those behind it untouched. */
  ghost predicate Progress(es: seq<Entry>, position: nat) {
    && position <= |es|
    && (forall i :: 0 <= i < position ==> es[i].result != Pending)
    && (forall i :: position < i < |es| ==> es[i].result == Pending)
  }

  lemma PermutedPending(es: seq<Entry>, es': seq<Entry>)
    requires AllPending(es) && multiset(es') == multiset(es)
    ensures AllPending(es')
  {
    forall i | 0 <= i < |es'|
      ensures es'[i].result == Pending
    {
      assert es'[i] in multiset(es');
    }
  }

  /** The cursor after `position` entries. */
  function CursorAt(es: seq<Entry>, position: nat, first: Bytes): Bytes
    requires position <= |es|
  {
    if position == 0 then first else es[position - 1].hash
  }

  /** The files that some slices visited. */
  function VisitedBy(slices: seq<Slice>): seq<(Bytes, FileKey)> {
    if slices == [] then [] else VisitedBy(slices[..|slices| - 1]) + slices[|slices| - 1].files
  }

  lemma {:induction false} SliceVisited(slices: seq<Slice>, i: nat, f: (Bytes, FileKey))
    requires i < |slices| && f in slices[i].files
    ensures f in VisitedBy(slices)
  {
    if i < |slices| - 1 {
      SliceVisited(slices[..|slices| - 1], i, f);
    }
  }

  lemma VisitedMore(slices: seq<Slice>, i: nat, seen: seq<(Bytes, FileKey)>) returns (more: seq<(Bytes, FileKey)>)
    requires i < |slices| && seen == VisitedBy(slices[..i])
    ensures more == VisitedBy(slices[..i + 1]) == seen + slices[i].files
  {
    more := seen + slices[i].files;
    assert slices[..i + 1][..i] == slices[..i];
  }

  class RefreshJob {
    const scan: RefreshScan
    const credits: ProbeCredits.CreditSlots
    const slot: nat
    const prefix: Bytes  // of the refresh profile
    var state: ScanState
    var position: nat
    var after: Bytes
    var credit: bool
    var active: bool
    var decision: bool
    var timedOut: bool
    var started: bool  // the scan exists
    ghost var taken: nat     // credits this job took
    ghost var released: nat  // and gave back

    ghost predicate Valid()
      reads this, scan, scan.entries, credits, credits.probes
    {
      && scan.Valid() && credits.Valid() && slot < ProbeCredits.SLOTS
      && Progress(scan.entries[..scan.count], position)
      && after == CursorAt(scan.entries[..scan.count], position, scan.after)
      && (active || decision ==> position < scan.count && scan.entries[position].result == Pending)
      && (state == Complete ==> Ascending(RanksOf(scan.entries[..scan.count])))
      && (state != Complete ==> position == 0 && !active && !decision && AllPending(scan.entries[..scan.count]))
      && !(active && decision)
      && (credit <==> active)
      && taken == released + (if credit then 1 else 0)
    }

    constructor (scan: RefreshScan, credits: ProbeCredits.CreditSlots, slot: nat, prefix: Bytes)
      requires scan.Valid() && scan.count == 0 && credits.Valid() && slot < ProbeCredits.SLOTS
      ensures Valid() && this.scan == scan && this.credits == credits && this.slot == slot && this.prefix == prefix
      ensures state == Scanning && position == 0 && after == scan.after && !timedOut && taken == 0
    {
      this.scan, this.credits, this.slot, this.prefix := scan, credits, slot, prefix;
      state, position, after := Scanning, 0, scan.after;
      credit, active, decision, timedOut, started := false, false, false, false, false;
      taken, released := 0, 0;
    }

    // ---- credits ----

    /** A credit can be had: the lock is free, and so is one of the sixteen. */
    ghost predicate Free(luck: ProbeLuck)
      requires credits.Valid()
      reads credits, credits.probes, credits.owners
    {
      luck.acquired
      && var left := ProbeCredits.Cleaned(credits.probes[..], credits.owners[..], luck.alive);
         ProbeCredits.Sum(left) < ProbeCredits.CREDITS
    }

    /** refresh_credit, taking. */
    method TakeCredit(luck: ProbeLuck) returns (ok: bool)
      requires credits.Valid() && slot < ProbeCredits.SLOTS && !credit
      modifies this`credit, this`taken, credits.probes
      ensures ok == old(Free(luck)) == credit && taken == old(taken) + (if ok then 1 else 0)
    {
      ok := credits.Take(slot, luck.acquired, luck.alive);
      if ok {
        credit := true;
        taken := taken + 1;
      }
    }

    /** refresh_credit, releasing: nothing happens unless the job holds a credit. */
    method ReleaseCredit()
      requires credits.Valid() && slot < ProbeCredits.SLOTS
      modifies this`credit, this`released, credits.probes
      ensures !credit && released == old(released) + (if old(credit) then 1 else 0)
      ensures credits.probes[..] ==
              if old(credit) && old(credits.probes[slot]) > 0
              then old(credits.probes[..])[slot := old(credits.probes[slot]) - 1]
              else old(credits.probes[..])
    {
      if credit {
        credits.Release(slot);
        credit := false;
        released := released + 1;
      }
    }

    // ---- the probe ----

    /** What there is to say about the current entry before probing it; Pending means that it can be probed. */
    ghost function VerdictHere(): Outcome
      requires scan.count <= scan.entries.Length && position < scan.count
      reads this`position, scan`count, scan.entries, scan.space
    {
      var e := scan.entries[position];
      if !IsCurrent(scan.space.name, scan.space.epoch, scan.space.log, e.key) then Replaced
      else if e.header.varies then SkippedVary
      else if Probeable(GenerationKey.Decode(scan.space.name, e.key).parts.logical, prefix, e.header.etag) then Pending
      else SkippedProfile
    }

    /** Why an entry is not probed: its key is no longer current, it varies, or its key or tag cannot be sent. */
    lemma VerdictMeans()
      requires scan.count <= scan.entries.Length && position < scan.count
      ensures var e := scan.entries[position];
        var current := IsCurrent(scan.space.name, scan.space.epoch, scan.space.log, e.key);
        && (VerdictHere() == Replaced <==> !current)
        && (VerdictHere() == SkippedVary <==> current && e.header.varies)
        && (VerdictHere() == Pending <==>
              && current && !e.header.varies
              && Probeable(GenerationKey.Decode(scan.space.name, e.key).parts.logical, prefix, e.header.etag))
        && VerdictHere() in {Replaced, SkippedVary, SkippedProfile, Pending}
    {
    }

    method Judge() returns (verdict: Outcome)
      requires Valid() && scan.space.Valid() && position < scan.count
      ensures verdict == VerdictHere()
    {
      var entry := scan.entries[position];
      var current, logical := scan.space.Current(entry.key);
      if !current {
        return Replaced;
      }
      if entry.header.varies {
        return SkippedVary;
      }
      var probeable := IsProbeable(logical, prefix, entry.header.etag);
      verdict := if probeable then Pending else SkippedProfile;
    }

    /** Start the probe with one credit, or keep none. */
    method StartProbe(luck: ProbeLuck) returns (rc: Probed)
      requires Valid() && state == Complete && !active && !decision
      requires position < scan.count && scan.entries[position].result == Pending
      modifies this`credit, this`active, this`taken, this`released, credits.probes
      ensures Valid() && (active <==> rc == Started)
      ensures rc == if !old(Free(luck)) then Waiting else if luck.memory then Started else NoMemory
      ensures released == old(released) + (if rc == NoMemory then 1 else 0)
    {
      var ok := TakeCredit(luck);
      if !ok {
        return Waiting;
      }
      if !luck.memory {
        ReleaseCredit();
        return NoMemory;
      }
      active := true;
      rc := Started;
    }

    /** The current entry gets its result. */
    method Resolve(result: Outcome)
      requires Valid() && state == Complete && !active && result != Pending
      requires position < scan.count && scan.entries[position].result == Pending
      modifies this`decision, scan.entries
      ensures Valid() && View() == old(View().Settled(result)) && scan.entries[position].result == result
    {
      ghost var es := scan.entries[..scan.count];
      scan.Mark(position, scan.entries[position].status, result);
      decision := false;
    }

    /** The upstream status is noted with the result, or leaves a decision open. */
    method Note(status: nat, result: Outcome)
      requires Valid() && state == Complete && !active
      requires position < scan.count && scan.entries[position].result == Pending
      modifies this`decision, scan.entries
      ensures Valid() && View() == old(View()).Noted(status, result)
    {
      scan.Mark(position, status, result);
      decision := result == Pending;
    }

    ghost function View(): Work
      requires scan.count <= scan.entries.Length
      reads this`position, this`active, this`decision, scan`count, scan.entries
    {
      Work(scan.entries[..scan.count], position, active, decision)
    }

    /** refresh_probe: the entry is skipped, or a probe starts with one credit, or no credit is kept. */
    method Probe(luck: ProbeLuck) returns (rc: Probed)
      requires Valid() && scan.space.Valid() && state == Complete && !active && !decision
      requires position < scan.count && scan.entries[position].result == Pending
      modifies this`credit, this`active, this`decision, this`taken, this`released, credits.probes, scan.entries
      ensures Valid()
      ensures rc == if old(VerdictHere()) != Pending then Skipped
                    else if !old(Free(luck)) then Waiting else if luck.memory then Started else NoMemory
      ensures View() == if rc == Skipped then old(View().Settled(VerdictHere()))
                        else old(View()).(active := rc == Started)
      ensures scan.entries[position].result == if rc == Skipped then old(VerdictHere()) else Pending
    {
      var verdict := Judge();
      if verdict != Pending {
        Resolve(verdict);
        return Skipped;
      }
      rc := StartProbe(luck);
    }

    method StopProbe()
      requires Valid() && active
      modifies this`credit, this`active, this`released, credits.probes
      ensures Valid() && !active && !decision && released == old(released) + 1
    {
      active := false;
      ReleaseCredit();
    }

    /**
     refresh_done: the end of a probe, which nginx may report more than once. `status` is 0 without an
     upstream answer and `guarded` says that the profile guard rejected the subrequest.
     */
    method Done(status: nat, guarded: bool)
      requires Valid()
      modifies this`credit, this`active, this`decision, this`released, credits.probes, scan.entries
      ensures Valid() && !active && taken == released
      ensures released == old(released) + (if old(active) then 1 else 0)
      ensures View() == old(After(View(), ProbeEnd(status, guarded)))
    {
      if active {
        StopProbe();
        Note(status, Meaning(status, guarded));
      }
    }

    /** The client went away: whatever the job holds is given back before it is destroyed. */
    method Cleanup()
      requires Valid()
      modifies this`credit, this`released, credits.probes
      ensures !credit && taken == released
    {
      ReleaseCredit();
    }

    // ---- the scan ----

    /** A finished scan is sorted; one with errors is not used at all. */
    method EndScan(outcome: SliceEnd)
      requires Valid() && state == Scanning && outcome != Unfinished
      modifies this`state, scan.entries
      ensures Valid() && state != Scanning && (outcome == Late <==> state == TimedOut)
      ensures state == Complete <==> outcome == Finished && scan.scanErrors == 0
    {
      if outcome == Late {
        state := TimedOut;
      } else if outcome == Finished && scan.scanErrors == 0 {
        ghost var es := scan.entries[..scan.count];
        scan.Sort();
        PermutedPending(es, scan.entries[..scan.count]);
        state := Complete;
      } else {
        state := Broken;
      }
    }

    /** refresh_scan: one slice, or none when the deadline passed before it. */
    method RunSlice(slice: Slice)
      requires Valid() && state == Scanning && scan.space.Valid()
      requires scan.Under(slice.files)
      modifies this`state, scan`count, scan`more, scan`offers, scan`scanErrors, scan.entries
      ensures Valid() && scan.space.Valid() && (state == Scanning <==> slice.outcome == Unfinished)
      ensures state == TimedOut <==> slice.outcome == Late
      ensures scan.offers == old(scan.offers) + (if slice.outcome == Late then [] else scan.RanksIn(slice.files))
    {
      if slice.outcome != Late {
        scan.VisitAll(slice.files);
      }
      if slice.outcome != Unfinished {
        EndScan(slice.outcome);
      }
    }

    /** A scan of several slices, the last of which finished. */
    method RunSlices(slices: seq<Slice>)
      requires Valid() && state == Scanning && scan.space.Valid() && slices != []
      requires forall i :: 0 <= i < |slices| ==> scan.Under(slices[i].files)
      requires forall i :: 0 <= i < |slices| ==>
                 slices[i].outcome == if i == |slices| - 1 then Finished else Unfinished
      modifies this`state, scan`count, scan`more, scan`offers, scan`scanErrors, scan.entries
      ensures Valid() && (state == Complete || state == Broken)
      ensures scan.offers == old(scan.offers) + scan.RanksIn(VisitedBy(slices))
    {
      var i := 0;
      ghost var seen := [];
      while i < |slices|
        invariant i <= |slices| && seen == VisitedBy(slices[..i]) && Valid() && scan.space.Valid()
        invariant if i < |slices| then state == Scanning else state == Complete || state == Broken
        invariant scan.offers == old(scan.offers) + scan.RanksIn(seen)
      {
        scan.RanksJoin(seen, slices[i].files);
        Associative(old(scan.offers), scan.RanksIn(seen), scan.RanksIn(slices[i].files));
        seen := VisitedMore(slices, i, seen);
        RunSlice(slices[i]);
        i := i + 1;
      }
      assert slices[..i] == slices;
    }

    /**
     The slices of one walk of the cache, the last of which finished without an error: what the page has then
     been offered are exactly the candidates among the files of the tree.
     */
    method ScanTree(slices: seq<Slice>, ghost c: W.Config, ghost d: W.Dir, ghost room: bool, ghost capacity: nat,
                    ghost read: Bytes -> FileKey)
      requires Valid() && state == Scanning && scan.space.Valid() && scan.offers == []
      requires scan.root != [] && c == W.Config(scan.root, Guarded(scan.protection, scan.paths), true)
      requires W.WalkRoot(c, d, room, capacity).errors == 0
      requires VisitedBy(slices) == Reading(W.Visits(W.WalkRoot(c, d, room, capacity).trace), read)
      requires slices != []
      requires forall i :: 0 <= i < |slices| ==>
                 slices[i].outcome == if i == |slices| - 1 then Finished else Unfinished
      modifies this`state, scan`count, scan`more, scan`offers, scan`scanErrors, scan.entries
      ensures Valid() && (state == Complete || state == Broken)
      ensures forall r: nat :: r in PageOf().candidates <==> scan.InTree(d, read, r)
    {
      forall i | 0 <= i < |slices|
        ensures scan.Under(slices[i].files)
      {
        SlicesUnder(slices, i, c, d, room, capacity, read);
      }
      forall r: nat
        ensures r in scan.RanksIn(VisitedBy(slices)) <==> scan.InTree(d, read, r)
      {
        scan.WalkOffersTheTree(c, d, room, capacity, read, r);
      }
      RunSlices(slices);
    }

    lemma SlicesUnder(slices: seq<Slice>, i: nat, c: W.Config, d: W.Dir, room: bool, capacity: nat,
                      read: Bytes -> FileKey)
      requires i < |slices| && c.root == scan.root
      requires VisitedBy(slices) == Reading(W.Visits(W.WalkRoot(c, d, room, capacity).trace), read)
      ensures scan.Under(slices[i].files)
    {
      forall j | 0 <= j < |slices[i].files|
        ensures scan.root + ['/'] <= slices[i].files[j].0
      {
        SliceVisited(slices, i, slices[i].files[j]);
        var visits := W.Visits(W.WalkRoot(c, d, room, capacity).trace);
        var k :| 0 <= k < |visits| && Reading(visits, read)[k] == slices[i].files[j];
        W.VisitsInside(c, d, room, capacity, visits[k]);
      }
    }

    // ---- decisions and progress ----

    /** A decision is carried out; false when the queue asks to try again. */
    method Decide(reply: Enqueued) returns (settled: bool)
      requires Valid() && decision && scan.space.Valid()
      modifies this`decision, scan.entries
      ensures Valid() && settled == !(old(VerdictHere()) != Replaced && reply == Busy)
      ensures View() == if settled then old(View().Settled(Consequence(VerdictHere() != Replaced, reply)))
                        else old(View())
    {
      var current, logical := scan.space.Current(scan.entries[position].key);
      if current && reply == Busy {
        return false;
      }
      Resolve(Consequence(current, reply));
      settled := true;
    }

    method Advance()
      requires Valid() && state == Complete && !active && !decision
      requires position < scan.count && scan.entries[position].result != Pending
      modifies this`position, this`after
      ensures Valid() && View() == old(View().Moved()) && after == scan.entries[old(position)].hash
    {
      assert scan.entries[position] == scan.entries[..scan.count][position];
      after := scan.entries[position].hash;
      position := position + 1;
    }

    // ---- the reply ----

    /** The page this job has worked on, as the pagination sees it. */
    ghost function PageOf(): RefreshPagination.Page
      reads this, scan, scan.entries
      requires scan.count <= scan.entries.Length
    {
      RefreshPagination.Page(Members(scan.offers), scan.after, state == Complete,
                             HashesOf(scan.entries[..scan.count]), scan.more, position)
    }

    /** The reply is that of the page as processed so far. */
    ghost predicate Describes(r: Reply)
      requires scan.count <= scan.entries.Length
      reads this, scan, scan.entries
    {
      && (r.ScanFailed? <==> state == Broken)
      && (r.Report? ==>
            && PageOf().Valid() && position <= scan.count
            && r.scanComplete == (state == Complete) && r.complete == PageOf().Complete() && r.timedOut == timedOut
            && r.nextCursor == PageOf().Next() && r.undispatched == scan.count - position
            && r.rows == if state == Complete then scan.entries[..scan.count] else [])
    }

    /** The arithmetic of refresh_reply describes exactly the page that was processed. */
    method Answer() returns (r: Reply)
      requires Valid()
      ensures Describes(r)
    {
      PageIsValid();
      if state == Broken {
        return ScanFailed;
      }
      var count := if state == Complete then scan.count else 0;
      var complete := state == Complete && !scan.more && position == count;
      r := Report(state == Complete, complete, timedOut, scan.count - position, after, scan.entries[..count]);
    }

    lemma PageIsValid()
      requires Valid()
      ensures PageOf().Valid() && after == PageOf().Next()
    {
      var p := PageOf();
      assert p.Above() == Members(scan.offers) && p.Listing() == RanksOf(scan.entries[..scan.count]);
    }

    // ---- one timer event ----

    /** The part of the step that works on the current entry. */
    method Proceed(luck: ProbeLuck, queue: Enqueued)
      requires Valid() && scan.space.Valid() && state == Complete && !active && position < scan.count
      modifies this`credit, this`active, this`decision, this`position, this`after, this`taken, this`released
      modifies credits.probes, scan.entries
      ensures Valid() && View() == old(Worked(View(), VerdictHere(), queue, Free(luck), luck.memory))
    {
      if decision {
        CarryOut(queue);
      } else if scan.entries[position].result != Pending {
        Advance();
      } else {
        ProbeAndAdvance(luck);
      }
    }

    method CarryOut(queue: Enqueued)
      requires Valid() && scan.space.Valid() && decision
      modifies this`decision, this`position, this`after, scan.entries
      ensures Valid() && View() == old(Carried(View(), VerdictHere() != Replaced, queue))
    {
      var settled := Decide(queue);
      if settled {
        Advance();
      }
    }

    method ProbeAndAdvance(luck: ProbeLuck)
      requires Valid() && scan.space.Valid() && state == Complete && !active && !decision
      requires position < scan.count && scan.entries[position].result == Pending
      modifies this`credit, this`active, this`decision, this`position, this`after, this`taken, this`released
      modifies credits.probes, scan.entries
      ensures Valid() && View() == old(Tried(View(), VerdictHere(), Free(luck), luck.memory))
    {
      var rc := Probe(luck);
      if rc == NoMemory {
        Resolve(Failed);
      }
      if rc == Skipped || rc == NoMemory {
        Advance();
      }
    }

    /** The event finds an entry to work on. */
    ghost predicate Due(e: Event)
      reads this`state, this`position, this`active, this`timedOut, this`started, scan`count
    {
      && state == Complete && position < scan.count
      && !active && !timedOut && !e.expired && !e.occupied && (started || e.memory)
    }

    method ContinueScan(e: Event) returns (phase: Phase)
      requires Valid() && scan.space.Valid() && !active && !timedOut
      requires scan.Under(e.slice.files)
      modifies this`timedOut, this`state, scan`count, scan`more, scan`offers, scan`scanErrors, scan.entries
      ensures Valid() && (state == old(state) || old(state) == Scanning) && phase != NoRoom
      ensures old(state) != Scanning ==> unchanged(scan) && unchanged(scan.entries)
      ensures old(state) == Complete ==> phase == if position == scan.count then Ending else Working
      ensures old(state) == Complete ==> WorkAfter(phase == Working, e) == old(WorkAfter(position < scan.count, e))
      ensures phase == Working ==> state == Complete && position < scan.count && !timedOut
      ensures phase == Ending ==> timedOut || state == Broken || (state == Complete && position == scan.count)
    {
      if state == Scanning {
        RunSlice(e.slice);
      }
      timedOut := state == TimedOut;
      phase := if state == Scanning then Idle
      else if state != Complete || position == scan.count then Ending
      else Working;
    }

    /** An event does nothing to the entries while a probe or another request's batch runs, and after the deadline. */
    lemma DueMeans(e: Event)
      ensures e.occupied || e.expired || timedOut || active || state != Complete ==> !Due(e)
      ensures started && state == Complete && position < scan.count ==>
                active || timedOut || e.expired || e.occupied || Due(e)
      ensures !started && !e.memory ==> !Due(e)
    {
    }

    /** The deadline, a running probe, another request's batch, and memory for the scan. */
    method Gate(e: Event) returns (phase: Phase)
      requires Valid()
      modifies this`timedOut, this`started
      ensures Valid() && timedOut == (old(timedOut) || e.expired)
      ensures phase == if active then Idle
                       else if timedOut then Ending
                       else if e.occupied then Idle
                       else if !old(started) && !e.memory then NoRoom
                       else Working
      ensures WorkAfter(false, e) == old(WorkAfter(false, e))
      ensures position < scan.count ==> WorkAfter(true, e) == old(WorkAfter(true, e))
      ensures phase == Working && state == Complete && position < scan.count <==> old(Due(e))
    {
      if e.expired {
        timedOut := true;
      }
      if active {
        return Idle;
      }
      if timedOut {
        return Ending;
      }
      if e.occupied {
        return Idle;
      }
      if !started && !e.memory {
        return NoRoom;
      }
      started := true;
      phase := Working;
    }

    /** The job's work after an event that finds an entry to work on, or does not. */
    ghost function WorkAfter(due: bool, e: Event): Work
      requires credits.Valid() && scan.count <= scan.entries.Length && (due ==> position < scan.count)
      reads this`position, this`active, this`decision
      reads scan`count, scan.entries, scan.space, credits, credits.probes, credits.owners
    {
      if due then Worked(View(), VerdictHere(), e.queue, Free(e.luck), e.luck.memory) else View()
    }

    /** The part of the step up to the current entry: the deadline, the worker's one batch, the scan. */
    method Prepare(e: Event) returns (phase: Phase)
      requires Valid() && scan.space.Valid()
      requires scan.Under(e.slice.files)
      modifies this`timedOut, this`started, this`state, scan`count, scan`more, scan`offers, scan`scanErrors,
               scan.entries
      ensures Valid() && scan.space.Valid() && (state == old(state) || old(state) == Scanning)
      ensures phase == Working ==> state == Complete && !active && position < scan.count && !timedOut
      ensures phase == Ending || phase == NoRoom ==> !active
      ensures phase == Ending ==> timedOut || state == Broken || (state == Complete && position == scan.count)
      ensures old(state) != Scanning ==> unchanged(scan) && unchanged(scan.entries)
      ensures old(state) == Complete ==>
                (phase == Working <==> old(Due(e))) && WorkAfter(phase == Working, e) == old(WorkAfter(Due(e), e))
    {
      phase := Gate(e);
      if phase == Working {
        phase := ContinueScan(e);
      }
    }

    method Act(phase: Phase, e: Event) returns (a: Action)
      requires Valid() && scan.space.Valid()
      requires phase == Working ==> state == Complete && !active && position < scan.count
      requires phase == Ending || phase == NoRoom ==> !active
      requires phase == Ending ==> timedOut || state == Broken || (state == Complete && position == scan.count)
      modifies this`credit, this`active, this`decision, this`position, this`after, this`taken, this`released
      modifies credits.probes, scan.entries
      ensures Valid()
      ensures a != Wait ==> !active && taken == released
      ensures a.Replied? ==> Describes(a.reply)
      ensures a.Replied? ==> timedOut || state == Broken || (state == Complete && position == scan.count)
      ensures phase == Working ==> a == Wait
      ensures View() == old(WorkAfter(phase == Working, e))
    {
      match phase {
        case Idle => a := Wait;
        case NoRoom => a := Aborted;
        case Ending =>
          var reply := Answer();
          a := Replied(reply);
        case Working =>
          Proceed(e.luck, e.queue);
          a := Wait;
      }
    }

    /**
     refresh_step. A reply is given only when no probe is running and no credit is held; it describes
     the page as processed so far. An event that finds an entry to work on does exactly its work.
     */
    method Step(e: Event) returns (a: Action)
      requires Valid() && scan.space.Valid()
      requires scan.Under(e.slice.files)
      modifies this, credits.probes, scan`count, scan`more, scan`offers, scan`scanErrors, scan.entries
      ensures Valid() && (state == old(state) || old(state) == Scanning)
      ensures a != Wait ==> !active && taken == released
      ensures a.Replied? ==> Describes(a.reply)
      ensures a.Replied? ==> timedOut || state == Broken || (state == Complete && position == scan.count)
      ensures old(Due(e)) ==> a == Wait
      ensures old(state) == Complete ==> View() == old(WorkAfter(Due(e), e))
    {
      var phase := Prepare(e);
      a := Act(phase, e);
    }
  }
}
