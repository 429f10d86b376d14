/**
 The per-request snapshots of ngx_http_cache_purge_generation_key: the first evaluation of a logical
 key fixes the encoded key for the rest of the request, however often it is evaluated again and
 whatever is invalidated in between.
 */
module RequestKeys {
  import opened Bytes
  import opened Generation
  import GenerationKey
  import opened Staleness

  datatype Snapshot = Snapshot(ns: GenerationState, logical: Bytes, encoded: Bytes)

  /** The first snapshot for this namespace and key, newest first. */
  function Find(snapshots: seq<Snapshot>, ns: GenerationState, key: Bytes): Option<Bytes> {
    if snapshots == [] then None
    else if snapshots[0].ns == ns && snapshots[0].logical == key then Some(snapshots[0].encoded)
    else Find(snapshots[1..], ns, key)
  }

  /** Pushing a snapshot for a key that had none disturbs no answer given before. */
  lemma PushKeepsAnswers(snapshots: seq<Snapshot>, pushed: Snapshot, ns: GenerationState, key: Bytes)
    requires Find(snapshots, pushed.ns, pushed.logical).None? && Find(snapshots, ns, key).Some?
    ensures Find([pushed] + snapshots, ns, key) == Find(snapshots, ns, key)
  {
    assert ([pushed] + snapshots)[1..] == snapshots;
  }

  /** An answer is that of a snapshot for this very namespace and key. */
  lemma {:induction false} FindIsOwn(snapshots: seq<Snapshot>, ns: GenerationState, key: Bytes)
    ensures Find(snapshots, ns, key).None? <==>
            forall i :: 0 <= i < |snapshots| ==> snapshots[i].ns != ns || snapshots[i].logical != key
    ensures Find(snapshots, ns, key).Some? ==>
            exists i :: 0 <= i < |snapshots| && snapshots[i] == Snapshot(ns, key, Find(snapshots, ns, key).value)
  {
    if snapshots != [] {
      FindIsOwn(snapshots[1..], ns, key);
    }
  }

  class RequestContext {
    var snapshots: seq<Snapshot>

    constructor ()
      ensures snapshots == []
    {
      snapshots := [];
    }

    /** None stands for NGX_DECLINED, the answer to an over-long key. */
    method KeyFor(ns: GenerationState, key: Bytes) returns (encoded: Option<Bytes>)
      requires ns.Valid()
      modifies this
      ensures encoded.None? <==> |key| > LOGICAL_KEY_MAX
      ensures encoded.Some? ==> Find(snapshots, ns, key) == encoded
      ensures encoded.Some? && old(Find(snapshots, ns, key)).None? ==>
                encoded.value == Derived(ns.name, ns.epoch, ns.log, key)
      ensures snapshots == if encoded.Some? && old(Find(snapshots, ns, key)).None?
                           then [Snapshot(ns, key, encoded.value)] + old(snapshots) else old(snapshots)
    {
      if |key| > LOGICAL_KEY_MAX {
        return None;
      }
      var i := 0;
      while i < |snapshots|
        invariant 0 <= i <= |snapshots|
        invariant Find(snapshots[i..], ns, key) == Find(snapshots, ns, key)
      {
        if snapshots[i].ns == ns && snapshots[i].logical == key {
          return Some(snapshots[i].encoded);
        }
        assert snapshots[i..][1..] == snapshots[i + 1..];
        i := i + 1;
      }
      var generation := ns.Lookup(key);
      var text := GenerationKey.Encode(ns.name, GenerationKey.Parts(ns.epoch, generation, key));
      assert ([Snapshot(ns, key, text)] + snapshots)[1..] == snapshots;
      snapshots := [Snapshot(ns, key, text)] + snapshots;
      return Some(text);
    }
  }
}
