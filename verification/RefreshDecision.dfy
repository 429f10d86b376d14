/**
 What the answer to a decision is made of: the conditional purge that REFRESH sends to the real queue and the
 real namespace for an entry whose probe said that the file is out of date.
 */
module RefreshDecision {
  import opened Bytes
  import opened GenerationKey
  import opened InvalidationLog
  import opened GenerationRules
  import opened Staleness
  import opened Generation
  import opened RefreshPage
  import RefreshJob
  import opened CleanupQueue
  import QueueState

  /** How refresh_step reads the return code of enqueue. */
  function Read(reply: Reply): RefreshJob.Enqueued {
    match reply
    case Accepted => RefreshJob.Taken
    case Full => RefreshJob.Busy
    case Refused => RefreshJob.Refused
    case Failed => RefreshJob.Faulty
    case Exiting => RefreshJob.Faulty
  }

  /** The purge of an entry: its logical key, if its encoded key is still the current one. */
  function PurgeOf(path: Bytes, protection: QueueState.Protection, logical: Bytes, key: Bytes): Purge {
    Purge(path, logical, false, Some(key), protection)
  }

  /** An accepted purge makes the entry's file stale for good. */
  lemma Outdated(name: Bytes, epoch: Bytes, log: Log, key: Bytes, rules: Rules, budget: nat)
    requires IsCurrent(name, epoch, log, key)
    ensures var logical := Decode(name, key).parts.logical;
      IsStale(name, epoch, log + [Effective(rules, Requested(logical, false, true), budget)], key)
  {
    var logical := Decode(name, key).parts.logical;
    var sel := Effective(rules, Requested(logical, false, true), budget);
    EffectiveCovers(rules, Requested(logical, false, true), budget, logical);
    LiveBounds(log, logical);
    LiveAfter(log, sel, logical);
  }

  /** The entry's result; Pending stands for another attempt. */
  function ResultOf(reply: Reply): Outcome {
    if Read(reply) == RefreshJob.Busy then Pending else RefreshJob.Consequence(true, Read(reply))
  }

  /** What each reply makes of the entry; only a queue that is full or busy is asked again. */
  lemma RepliesMean(reply: Reply)
    ensures ResultOf(reply) == Invalidated <==> reply == Accepted
    ensures ResultOf(reply) == Pending <==> reply == Full
    ensures ResultOf(reply) == Replaced <==> reply == Refused
    ensures ResultOf(reply) == Outcome.Failed <==> reply.Failed? || reply.Exiting?
  {
  }

  /** The purge goes to the queue, which changes nothing unless it accepts it. */
  method Send(logical: Bytes, key: Bytes, space: GenerationState, queue: CleanupQueue, path: Bytes,
              protection: QueueState.Protection, a: Attempt, slot: nat) returns (reply: Reply)
    requires queue.Valid() && Sound(space) && IsCurrent(space.name, space.epoch, space.log, key)
    requires logical == Decode(space.name, key).parts.logical
    modifies queue, queue.abs.records.Keys, Footprint(space)
    ensures queue.Valid() && Sound(space)
    ensures reply == old(queue.Answer(PurgeOf(path, protection, logical, key), a, space))
    ensures if reply == Accepted then IsStale(space.name, space.epoch, space.log, key)
            else queue.abs == old(queue.abs) && space.log == old(space.log)
  {
    Outdated(space.name, space.epoch, space.log, key, space.RulesNow(), a.budget);
    var task;
    reply, task := queue.Enqueue(PurgeOf(path, protection, logical, key), a, space, slot);
  }

  /**
   A decision is carried out: the entry is invalidated exactly if its key is still current and the queue takes
   the purge, and then its file is stale; in every other case neither the namespace nor the queue changes.
   */
  method CarryOut(key: Bytes, space: GenerationState, queue: CleanupQueue, path: Bytes,
                  protection: QueueState.Protection, a: Attempt, slot: nat) returns (result: Outcome)
    requires queue.Valid() && Sound(space)
    modifies queue, queue.abs.records.Keys, Footprint(space)
    ensures queue.Valid() && Sound(space)
    ensures if !old(IsCurrent(space.name, space.epoch, space.log, key)) then result == Replaced
            else var logical := Decode(space.name, key).parts.logical;
              result == ResultOf(old(queue.Answer(PurgeOf(path, protection, logical, key), a, space)))
    ensures if result == Invalidated then IsStale(space.name, space.epoch, space.log, key)
            else queue.abs == old(queue.abs) && space.log == old(space.log)
  {
    var current, logical := space.Current(key);
    if !current {
      return Replaced;
    }
    var reply := Send(logical, key, space, queue, path, protection, a, slot);
    result := ResultOf(reply);
  }
}
