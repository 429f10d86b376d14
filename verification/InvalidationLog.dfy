/**
 The simple specification of a namespace's generations: the log of the invalidations it
 accepted since its epoch began. A key's live generation is the serial of the latest entry
 that covers the key, or 1 when none does.
 */
module InvalidationLog {
  import opened Bytes

  // `Everything` resets the namespace, `Exact` names one logical key, and `Prefix` covers every
  // key whose lower-cased bytes begin with the (already lower-cased) stem.
  datatype Selector = Everything | Exact(key: Bytes) | Prefix(stem: Bytes)

  type Log = seq<Selector>

  predicate Covers(sel: Selector, key: Bytes) {
    match sel
    case Everything => true
    case Exact(k) => k == key
    case Prefix(stem) => stem <= Fold(key)
  }

  /**
   What an invalidation asks for: a trailing `*` makes an unconditional selector a prefix, and an
   empty selector (or the purge-all flag) stands for the whole namespace.
   */
  function Requested(key: Bytes, all: bool, conditional: bool): Selector {
    var prefix := !conditional && |key| != 0 && key[|key| - 1] == '*';
    var word := if prefix then key[..|key| - 1] else key;
    if all || |word| == 0 then Everything
    else if prefix then Prefix(Fold(word))
    else Exact(word)
  }

  /** Purging everything covers every key, whatever key the request carries. */
  lemma PurgeAllCoversAll(key: Bytes, conditional: bool, k: Bytes)
    ensures Covers(Requested(key, true, conditional), k)
  {
  }

  /** A conditional selector covers its own key only; the empty key stands for the namespace. */
  lemma ConditionalCovers(key: Bytes, k: Bytes)
    ensures Covers(Requested(key, false, true), k) <==> key == [] || k == key
  {
  }

  /** So does an unconditional one that does not end in `*`. */
  lemma LiteralCovers(key: Bytes, k: Bytes)
    requires key == [] || key[|key| - 1] != '*'
    ensures Covers(Requested(key, false, false), k) <==> key == [] || k == key
  {
  }

  /** A selector that ends in `*` covers the keys that begin with what stands before it, in either letter case. */
  lemma PrefixCovers(stem: Bytes, k: Bytes)
    ensures Covers(Requested(stem + ['*'], false, false), k) <==>
            |stem| <= |k| && forall i :: 0 <= i < |stem| ==> ToLower(stem[i]) == ToLower(k[i])
  {
    var key := stem + ['*'];
    assert key[..|key| - 1] == stem;
    if |stem| <= |k| {
      assert forall i :: 0 <= i < |stem| ==> Fold(stem)[i] == ToLower(stem[i]) && Fold(k)[i] == ToLower(k[i]);
    }
  }

  function Serial(log: Log): nat {
    |log| + 1
  }

  function Live(log: Log, key: Bytes): nat {
    if |log| == 0 then 1
    else if Covers(log[|log| - 1], key) then Serial(log)
    else Live(log[..|log| - 1], key)
  }

  lemma LiveBounds(log: Log, key: Bytes)
    ensures 1 <= Live(log, key) <= Serial(log)
  {
  }

  /** A covering invalidation gives the key exactly the new serial, and leaves every other key alone. */
  lemma LiveAfter(log: Log, sel: Selector, key: Bytes)
    ensures Live(log + [sel], key) == if Covers(sel, key) then Serial(log) + 1 else Live(log, key)
  {
    assert (log + [sel])[..|log|] == log;
  }

  /** Generations never decrease. */
  lemma {:induction false} LiveMonotone(log: Log, more: Log, key: Bytes)
    ensures Live(log, key) <= Live(log + more, key)
    decreases |more|
  {
    if |more| == 0 {
      assert log + more == log;
    } else {
      var front, sel := more[..|more| - 1], more[|more| - 1];
      LiveMonotone(log, front, key);
      assert log + more == (log + front) + [sel];
      LiveAfter(log + front, sel, key);
      LiveBounds(log + front, key);
    }
  }

  /** Once a covering invalidation is in the log, the key stays above everything it was before. */
  lemma LiveRaised(log: Log, sel: Selector, more: Log, key: Bytes)
    requires Covers(sel, key)
    ensures Live(log, key) < Live(log + [sel] + more, key)
  {
    LiveBounds(log, key);
    LiveAfter(log, sel, key);
    LiveMonotone(log + [sel], more, key);
  }
}
