/**
 What a walk does with one visited file: ngx_http_cache_purge_delete_file decides by path, key and
 generation whether to unlink it. Reading the entry's key and unlinking are oracles.
 */
module CleanupFile {
  import opened Bytes
  import opened Generation
  import opened Staleness
  import opened Paths
  import opened GenerationKey
  import opened InvalidationLog
  import W = DirectoryWalk
  import RefreshPage
  import CleanupQueue
  import QueueProtocol

  const NEWLINE: Byte := '\n'

  // What reading the file's key gives, and what unlinking the file gives.
  datatype ReadKey = Entry(key: Bytes, size: nat) | Declined | Unreadable

  datatype Unlinked = Gone | Missing | Refused

  /** The bytes a task's key selects by: the tag and a trailing `*` are dropped, a namespace task has none. */
  function Stem(tagged: Bytes): Bytes {
    if tagged == [] || tagged[0] == 'G' then []
    else
      var key := tagged[1..];
      if key != [] && key[|key| - 1] == '*' then key[..|key| - 1] else key
  }

  function Saturated(sum: nat, v: nat): nat {
    if sum + v <= UINT64_MAX then sum + v else UINT64_MAX
  }

  /** A count of bytes never wraps and never falls. */
  lemma SaturatedExactly(sum: nat, v: nat)
    requires sum <= UINT64_MAX
    ensures sum <= Saturated(sum, v) <= UINT64_MAX && Saturated(sum, v) <= sum + v
    ensures Saturated(sum, v) == sum + v || Saturated(sum, v) == UINT64_MAX
  {
  }

  class Sweep {
    const root: Bytes
    const protection: Option<seq<Bytes>>
    const paths: Option<seq<ConfiguredPath>>
    const stem: Bytes
    const exact: bool             // the walk removes variants of one exact key
    const space: GenerationState?
    var filesDeleted: nat
    var bytesDeleted: nat
    var deleteErrors: nat
    var scanErrors: nat

    constructor (root: Bytes, protection: Option<seq<Bytes>>, paths: Option<seq<ConfiguredPath>>,
                 stem: Bytes, exact: bool, space: GenerationState?)
      ensures this.root == root && this.protection == protection && this.paths == paths
      ensures this.stem == stem && this.exact == exact && this.space == space
      ensures filesDeleted == bytesDeleted == deleteErrors == scanErrors == 0
    {
      this.root, this.protection, this.paths := root, protection, paths;
      this.stem, this.exact, this.space := stem, exact, space;
      filesDeleted, bytesDeleted, deleteErrors, scanErrors := 0, 0, 0, 0;
    }

    /** The file's name qualifies it, and the selector is one this walk can apply. */
    predicate Considered(path: Bytes) {
      && !Protected(path, root, Guarded(protection, paths)) && RefreshPage.CacheFile(path)
      && |stem| < CleanupQueue.KEY_MAX && !(exact && stem == [])
    }

    /** The entry's key, followed by its newline, matches the selector. */
    predicate Matches(key: Bytes) {
      var line := key + [NEWLINE];
      if exact then |line| > |stem| && line[..|stem|] == stem && line[|stem|] == NEWLINE
      else Fold(stem) <= Fold(line)
    }

    /** The walk tries to unlink exactly these files. */
    ghost predicate Selected(path: Bytes, file: ReadKey)
      reads if space == null then {} else {space}
    {
      && Considered(path) && file.Entry? && Matches(file.key)
      && (space != null ==> IsStale(space.name, space.epoch, space.log, file.key))
    }

    method IsConsidered(path: Bytes) returns (r: bool)
      ensures r <==> Considered(path)
    {
      r := IsProtectedPath(path, root, protection, paths);
      if !r {
        r := RefreshPage.IsCacheFile(path);
        r := r && |stem| < CleanupQueue.KEY_MAX && !(exact && stem == []);
      } else {
        r := false;
      }
    }

    /** The comparison with what was read: as many bytes of the key and its newline as the selector has. */
    method IsMatch(key: Bytes) returns (r: bool)
      ensures r <==> Matches(key)
    {
      var line := key + [NEWLINE];
      var len := |stem| + (if exact then 1 else 0);
      if |line| < len {
        return false;
      }
      if exact {
        return line[|stem|] == NEWLINE && line[..|stem|] == stem;
      }
      FoldTake(line, len);
      assert Fold(line)[..len] == Fold(stem) <==> Fold(stem) <= Fold(line);
      return Fold(line[..len]) == Fold(stem);
    }

    /** Count what unlinking gave; the counters stop at their maximum. */
    method CountUnlink(outcome: Unlinked, size: nat)
      modifies this`filesDeleted, this`bytesDeleted, this`deleteErrors
      ensures filesDeleted == old(filesDeleted) + (if outcome == Gone && old(filesDeleted) != UINT64_MAX then 1 else 0)
      ensures deleteErrors == old(deleteErrors) +
                (if outcome == Refused && old(deleteErrors) != UINT64_MAX then 1 else 0)
      ensures bytesDeleted == if outcome == Gone then Saturated(old(bytesDeleted), size) else old(bytesDeleted)
    {
      match outcome {
        case Gone =>
          if filesDeleted != UINT64_MAX {
            filesDeleted := filesDeleted + 1;
          }
          bytesDeleted := Saturated(bytesDeleted, size);
        case Missing =>
        case Refused =>
          if deleteErrors != UINT64_MAX {
            deleteErrors := deleteErrors + 1;
          }
      }
    }

    /** delete_file. */
    method DeleteFile(path: Bytes, file: ReadKey, outcome: Unlinked) returns (tried: bool)
      requires space != null ==> space.Valid()
      modifies this`filesDeleted, this`bytesDeleted, this`deleteErrors, this`scanErrors
      ensures tried <==> Selected(path, file)
      ensures scanErrors == old(scanErrors) + (if Considered(path) && file == Unreadable then 1 else 0)
      ensures filesDeleted == old(filesDeleted) +
                (if tried && outcome == Gone && old(filesDeleted) != UINT64_MAX then 1 else 0)
      ensures deleteErrors == old(deleteErrors) +
                (if tried && outcome == Refused && old(deleteErrors) != UINT64_MAX then 1 else 0)
      ensures bytesDeleted == if tried && outcome == Gone then Saturated(old(bytesDeleted), file.size)
              else old(bytesDeleted)
    {
      tried := IsConsidered(path);
      if !tried {
        return;
      }
      match file {
        case Unreadable =>
          scanErrors := scanErrors + 1;
          tried := false;
        case Declined =>
          tried := false;
        case Entry(key, size) =>
          tried := IsMatch(key);
          if tried && space != null {
            tried := space.Stale(key);
          }
          if tried {
            CountUnlink(outcome, size);
          }
      }
    }

    /** The visitor's work in one pass: delete_file for every visited file. */
    method DeleteAll(visits: seq<Bytes>, read: Bytes -> ReadKey, unlink: Bytes -> Unlinked) returns (tried: set<Bytes>)
      requires space != null ==> space.Valid()
      modifies this`filesDeleted, this`bytesDeleted, this`deleteErrors, this`scanErrors
      ensures forall path :: path in tried <==> path in visits && Selected(path, read(path))
    {
      tried := {};
      var i := 0;
      while i < |visits|
        invariant i <= |visits| && (space != null ==> space.Valid())
        invariant forall path :: path in tried <==> path in visits[..i] && Selected(path, read(path))
      {
        var here := DeleteFile(visits[i], read(visits[i]), unlink(visits[i]));
        assert visits[..i + 1] == visits[..i] + [visits[i]];
        if here {
          tried := tried + {visits[i]};
        }
        i := i + 1;
      }
      assert visits[..i] == visits;
    }

    /** The task of a namespace removes a file exactly when it is an unprotected cache file with a stale key. */
    lemma NamespaceSweep(path: Bytes, file: ReadKey, name: Bytes, key: Bytes)
      requires space != null && !exact && stem == Stem(CleanupQueue.Tagged(Some(name), key, false))
      ensures Selected(path, file) <==>
              && !Protected(path, root, Guarded(protection, paths)) && RefreshPage.CacheFile(path)
              && file.Entry? && IsStale(space.name, space.epoch, space.log, file.key)
    {
      WholeTasks(name, key);
    }

    /** It never touches a file of another namespace, nor one that no namespace wrote. */
    lemma SparesOthers(path: Bytes, file: ReadKey, other: Bytes, parts: Parts)
      requires space != null && ValidName(space.name) && ValidName(other) && other != space.name
      requires |parts.epoch| == EPOCH_LENGTH && file.Entry?
      requires file.key == Encode(other, parts) || !GenerationKey.WellFormed(space.name, file.key)
      ensures !Selected(path, file)
    {
      if file.key == Encode(other, parts) {
        OtherNamespaceIsNotStale(space.name, other, space.epoch, space.log, parts);
      } else {
        ForeignIsNotStale(space.name, space.epoch, space.log, file.key);
      }
    }

    /** What a task without a namespace selects: the cache files whose key begins with its key. */
    lemma LiteralSweep(path: Bytes, file: ReadKey, key: Bytes, all: bool)
      requires space == null && !exact && stem == Stem(CleanupQueue.Tagged(None, key, all))
      requires !CleanupQueue.TooLong(None, key, all)
      ensures Selected(path, file) <==>
              && !Protected(path, root, Guarded(protection, paths)) && RefreshPage.CacheFile(path)
              && file.Entry? && Reaches(key, all, file.key)
    {
      LiteralStem(key, all);
      if file.Entry? {
        LineBeginsFolded(stem, file.key);
      }
    }

    /** A purge of everything, or one that ends in `*`, selects exactly the cache files whose keys it covers. */
    lemma CoveredSweep(path: Bytes, file: ReadKey, key: Bytes, all: bool)
      requires space == null && !exact && stem == Stem(CleanupQueue.Tagged(None, key, all))
      requires !CleanupQueue.TooLong(None, key, all)
      requires all || key == [] || (key[|key| - 1] == '*' && (|key| == 1 || key[|key| - 2] != NEWLINE))
      ensures Selected(path, file) <==>
              && !Protected(path, root, Guarded(protection, paths)) && RefreshPage.CacheFile(path)
              && file.Entry? && Covers(Requested(key, all, false), file.key)
    {
      LiteralSweep(path, file, key, all);
      ReachesWhatItCovers(key, all);
      assert file.Entry? ==> (Reaches(key, all, file.key) <==> Covers(Requested(key, all, false), file.key));
    }

    /** The walk of one exact key selects the files of that key, if it is shorter than 512 bytes and not empty. */
    lemma ExactSweep(path: Bytes, file: ReadKey)
      requires space == null && exact && (file.Entry? ==> NEWLINE !in file.key)
      ensures Selected(path, file) <==>
              && !Protected(path, root, Guarded(protection, paths)) && RefreshPage.CacheFile(path)
              && file.Entry? && file.key == stem && 0 < |stem| < 512
    {
      if file.Entry? {
        var line := file.key + [NEWLINE];
        if |line| > |stem| && line[|stem|] == NEWLINE {
          assert |stem| == |file.key|;
          assert line[..|stem|] == file.key;
        }
      }
    }

    /** A purge of everything removes every unprotected cache file whose key can be read. */
    lemma PurgeAllSweep(path: Bytes, file: ReadKey, key: Bytes)
      requires space == null && !exact && stem == Stem(CleanupQueue.Tagged(None, key, true))
      ensures Selected(path, file) <==>
              !Protected(path, root, Guarded(protection, paths)) && RefreshPage.CacheFile(path) && file.Entry?
    {
      WholeTasks([], key);
    }

    /**
     A pass that settles its task without errors has tried to unlink every file of the cache that the task
     selects, under the protection of the task's last acceptance.
     */
    lemma SettledPassTriesAll<I>(s: QueueProtocol.Sys<I>, step: QueueProtocol.Step<I>, i: I,
                                 d: W.Dir, room: bool, capacity: nat, read: Bytes -> ReadKey, tried: set<Bytes>)
      requires QueueProtocol.Settles(s, step, i)
      requires var pass := s.workers[step.pid].pass.value;
        !pass.tally.Errors() && protection == Some(pass.protection)
      // The task is a literal one, or its namespace was configured when the pass began.
      requires forall name: Bytes :: s.q.records[i].key == ['G'] + name ==>
                 name in s.workers[step.pid].pass.value.namespaces
      requires root == s.q.records[i].path && root != []
      // The pass was this walk of the cache, and its visitor DeleteAll.
      requires var walk := W.WalkRoot(W.Config(root, Guarded(protection, paths), true), d, room, capacity);
        && s.workers[step.pid].pass.value.tally.scanErrors == walk.errors
        && forall path :: path in tried <==> path in W.Visits(walk.trace) && Selected(path, read(path))
      ensures s.workers[step.pid].pass.value.walked && protection == Some(s.history[i].protection)
      ensures forall path :: path in W.Files(d, root) && Selected(path, read(path)) ==> path in tried
    {
      var c := W.Config(root, Guarded(protection, paths), true);
      QueueProtocol.OrphanedExactly(s.q.records[i].key, s.workers[step.pid].pass.value.namespaces);
      forall path | path in W.Files(d, root) && Selected(path, read(path))
        ensures path in tried
      {
        W.VisitedExactly(c, d, room, capacity, path);
        W.VisitsExactly(W.WalkRoot(c, d, room, capacity).trace, path);
      }
    }

    /** Nothing outside the cache root and nothing below a protected path is ever selected. */
    lemma SelectedIsInside(path: Bytes, file: ReadKey, name: Bytes)
      requires Selected(path, file)
      ensures Contains(path, root)
      ensures name in Guarded(protection, paths) && |name| > Trim(root) && Contains(name, root) ==>
              !Contains(path, name)
    {
      assert !Guards(name, path, root) || name !in Guarded(protection, paths);
    }
  }

  /** A prefix purge the queue accepts is never too long for the walk; an accepted 512-byte key without `*` would be. */
  lemma AcceptedPrefixFits(key: Bytes)
    requires !CleanupQueue.TooLong(None, key, false)
    ensures |Stem(CleanupQueue.Tagged(None, key, false))| < CleanupQueue.KEY_MAX <==>
            |key| < CleanupQueue.KEY_MAX || key[|key| - 1] == '*'
  {
    var tagged := CleanupQueue.Tagged(None, key, false);
    assert tagged == ['L'] + key && tagged[1..] == key;
  }

  /** The key and its newline begin with these bytes, in either letter case. */
  predicate LineBegins(stem: Bytes, key: Bytes) {
    && |stem| <= |key| + 1
    && forall i :: 0 <= i < |stem| ==> ToLower(stem[i]) == ToLower((key + [NEWLINE])[i])
  }

  /**
   What the walk of a literal purge compares: the whole key, without a trailing `*`, up to 511 bytes; nothing
   for a purge of everything.
   */
  predicate Reaches(key: Bytes, all: bool, fileKey: Bytes) {
    if all || key == [] then true
    else if key[|key| - 1] == '*' then LineBegins(key[..|key| - 1], fileKey)
    else |key| < 512 && LineBegins(key, fileKey)
  }

  lemma LiteralStem(key: Bytes, all: bool)
    requires !CleanupQueue.TooLong(None, key, all)
    ensures var stem := Stem(CleanupQueue.Tagged(None, key, all));
      && (all || key == [] ==> stem == [])
      && (!all && key != [] ==> stem == if key[|key| - 1] == '*' then key[..|key| - 1] else key)
  {
    var tagged := CleanupQueue.Tagged(None, key, all);
    assert tagged == ['L'] + (if all then [] else key) && tagged[1..] == if all then [] else key;
  }

  lemma LineBeginsFolded(stem: Bytes, key: Bytes)
    ensures LineBegins(stem, key) <==> Fold(stem) <= Fold(key + [NEWLINE])
  {
    var line := key + [NEWLINE];
    if |stem| <= |line| {
      assert forall i :: 0 <= i < |stem| ==> Fold(stem)[i] == ToLower(stem[i]) && Fold(line)[i] == ToLower(line[i]);
    }
  }

  /**
   A purge reaches by its walk exactly the keys that it covers, whatever they are, if and only if it is a purge
   of everything or ends in `*`, and no newline stands before the `*`.
   */
  lemma ReachesWhatItCovers(key: Bytes, all: bool)
    requires !CleanupQueue.TooLong(None, key, all)
    ensures (forall k: Bytes :: Reaches(key, all, k) <==> Covers(Requested(key, all, false), k)) <==>
            || all || key == []
            || (key[|key| - 1] == '*' && (|key| == 1 || key[|key| - 2] != NEWLINE))
  {
    if all || key == [] {
      forall k: Bytes
        ensures Covers(Requested(key, all, false), k)
      {
        PurgeAllCoversAll(key, false, k);
        if !all {
          LiteralCovers(key, k);
        }
      }
    } else if key[|key| - 1] == '*' {
      StarReaches(key[..|key| - 1]);
      assert key == key[..|key| - 1] + ['*'];
    } else {
      NoStarReachesMore(key);
    }
  }

  lemma OnlyByNewline(stem: Bytes, k: Bytes)
    ensures LineBegins(stem, k) && |stem| == |k| + 1 ==> stem[|k|] == NEWLINE
  {
    if LineBegins(stem, k) && |stem| == |k| + 1 {
      assert ToLower(stem[|k|]) == ToLower((k + [NEWLINE])[|k|]);
    }
  }

  lemma StarReaches(stem: Bytes)
    ensures var key := stem + ['*'];
      (forall k: Bytes :: Reaches(key, false, k) <==> Covers(Requested(key, false, false), k)) <==>
      stem == [] || stem[|stem| - 1] != NEWLINE
  {
    var key := stem + ['*'];
    assert key[..|key| - 1] == stem;
    forall k: Bytes | stem == [] || stem[|stem| - 1] != NEWLINE
      ensures Reaches(key, false, k) <==> Covers(Requested(key, false, false), k)
    {
      PrefixCovers(stem, k);
      OnlyByNewline(stem, k);
    }
    if stem != [] && stem[|stem| - 1] == NEWLINE {
      var k := stem[..|stem| - 1];
      assert k + [NEWLINE] == stem;
      PrefixCovers(stem, k);
      assert Reaches(key, false, k) && !Covers(Requested(key, false, false), k);
    }
  }

  /** Without a `*` the walk reaches longer keys as well, or for 512 bytes none at all. */
  lemma NoStarReachesMore(key: Bytes)
    requires key != [] && key[|key| - 1] != '*'
    ensures exists k: Bytes :: Reaches(key, false, k) != Covers(Requested(key, false, false), k)
  {
    var longer := key + ['x'];
    LiteralCovers(key, longer);
    LiteralCovers(key, key);
    if |key| < 512 {
      assert Reaches(key, false, longer);
    } else {
      assert !Reaches(key, false, key);
    }
  }

  /** A namespace task and a purge of everything select by no bytes at all. */
  lemma WholeTasks(name: Bytes, key: Bytes)
    ensures Stem(CleanupQueue.Tagged(Some(name), key, false)) == [] && Stem(CleanupQueue.Tagged(None, key, true)) == []
  {
    assert CleanupQueue.Tagged(Some(name), key, false) == ['G'] + name;
    assert CleanupQueue.Tagged(None, key, true) == ['L'];
  }
}
