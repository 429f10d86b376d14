/**
 One REFRESH page: a scan offers every matching cache file to a table of 32 entries, which ends up
 holding the smallest hashes above the cursor in ascending order. The walk that drives the scan is
 `DirectoryWalk`; reading a cache file is an oracle.
 */
module RefreshPage {
  import opened Bytes
  import opened Sequences
  import opened HashOrder
  import opened PageSelection
  import opened Generation
  import GenerationKey
  import opened InvalidationLog
  import opened Staleness
  import opened Paths
  import W = DirectoryWalk

  // The parts of a native cache header that REFRESH uses.
  datatype Header = Header(varies: bool, etag: Bytes, modified: int)

  datatype Outcome =
    | Pending | Kept | Invalidated | Transport | UpstreamStatus | SkippedVary | SkippedProfile | Replaced | Failed

  datatype Entry = Entry(hash: Bytes, key: Bytes, header: Header, status: nat, result: Outcome)

  // What reading the key of a cache file gives.
  datatype FileKey = Readable(key: Bytes, header: Header) | Declined | Unreadable

  // ---- which files belong on a page ----

  /** A cache file name: 32 hex digits after a separator. */
  predicate CacheFile(path: Bytes) {
    && |path| >= HASH
    && (|path| == HASH || Separator(path[|path| - HASH - 1]))
    && forall i :: |path| - HASH <= i < |path| ==> IsHex(path[i])
  }

  /** A cache file is named by a hash, and by nothing more: temporary files have longer names. */
  lemma CacheFileExactly(path: Bytes)
    ensures CacheFile(path) <==>
            HexHash(path) || exists dir: Bytes, hash: Bytes :: path == dir + ['/'] + hash && HexHash(hash)
  {
    if CacheFile(path) {
      var n := |path| - HASH;
      var hash := path[n..];
      assert HexHash(hash);
      if n > 0 {
        assert path == path[..n - 1] + ['/'] + hash;
      } else {
        assert path == hash;
      }
    }
    forall dir: Bytes, hash: Bytes | path == dir + ['/'] + hash && HexHash(hash)
      ensures CacheFile(path)
    {
      var n := |path| - HASH;
      assert path[n - 1] == '/' && forall i :: n <= i < |path| ==> path[i] == hash[i - n];
    }
  }

  method IsCacheFile(path: Bytes) returns (r: bool)
    ensures r <==> CacheFile(path)
  {
    if |path| < HASH {
      return false;
    }
    var start := |path| - HASH;
    if start != 0 && !Separator(path[start - 1]) {
      return false;
    }
    var i := start;
    while i < |path|
      invariant start <= i <= |path| && forall j :: start <= j < i ==> IsHex(path[j])
    {
      if !IsHex(path[i]) {
        return false;
      }
      i := i + 1;
    }
    return true;
  }

  function HashOf(path: Bytes): (h: Bytes)
    requires |path| >= HASH
    ensures |h| == HASH
  {
    path[|path| - HASH..]
  }

  /** The levels of a cache path: at most three directories named by one or two hash digits each. */
  predicate Levels(levels: seq<nat>) {
    |levels| <= 3 && forall i :: 0 <= i < |levels| ==> 1 <= levels[i] <= 2
  }

  /** The hash digits that the first n directories take. */
  function Digits(levels: seq<nat>, n: nat): (d: nat)
    requires Levels(levels) && n <= |levels|
    ensures n <= d <= 2 * n
  {
    if n == 0 then 0 else Digits(levels, n - 1) + levels[n - 1]
  }

  lemma {:induction false} DigitsGrow(levels: seq<nat>, n: nat, m: nat)
    requires Levels(levels) && n <= m <= |levels|
    ensures Digits(levels, n) + m - n <= Digits(levels, m)
  {
    if n < m {
      DigitsGrow(levels, n, m - 1);
    }
  }

  /** The names of the first n directories of a hash, taken from its end. */
  function Directories(levels: seq<nat>, hash: Bytes, n: nat): (d: Bytes)
    requires |hash| == HASH && Levels(levels) && n <= |levels|
    ensures |d| == Digits(levels, n) + n
  {
    if n == 0 then [] else Directories(levels, hash, n - 1) + Named(hash, HASH - Digits(levels, n), levels[n - 1])
  }

  /** A directory named by the digits from `tail` on. */
  function Named(hash: Bytes, tail: nat, level: nat): (d: Bytes)
    requires tail + level <= |hash|
    ensures |d| == level + 1
  {
    hash[tail..tail + level] + ['/']
  }

  /** The one place where the file of a hash belongs. */
  function Place32(root: Bytes, levels: seq<nat>, hash: Bytes): Bytes
    requires |hash| == HASH && Levels(levels)
  {
    root + ['/'] + Directories(levels, hash, |levels|) + hash
  }

  /** At the k-th level the text has the right directory. */
  predicate NamedAt(text: Bytes, levels: seq<nat>, hash: Bytes, k: nat)
    requires |hash| == HASH && Levels(levels) && k < |levels|
  {
    var offset, tail, level := Digits(levels, k) + k, HASH - Digits(levels, k + 1), levels[k];
    && offset + level < |text|
    && text[offset..offset + level] == hash[tail..tail + level] && text[offset + level] == '/'
  }

  lemma SplitAfter(path: Bytes, front: Bytes, back: Bytes)
    ensures path == front + back <==> front <= path && path[|front|..] == back
  {
    if front <= path {
      assert path == front + path[|front|..];
    }
  }

  /** One more directory fits when what follows is its name and a slash. */
  lemma NameFollows(text: Bytes, offset: nat, names: Bytes, level: nat, name: Bytes)
    requires offset == |names| && level == |name|
    ensures names + (name + ['/']) <= text <==>
            && names <= text && offset + level < |text|
            && text[offset..offset + level] == name && text[offset + level] == '/'
  {
    var end, more := offset + level, names + (name + ['/']);
    assert names <= more && more[offset..end] == name && more[end] == '/';
    if names <= text && end < |text| {
      assert text[..end + 1] == names + (text[offset..end] + [text[end]]);
    }
  }

  lemma OneLevel(text: Bytes, levels: seq<nat>, hash: Bytes, n: nat)
    requires |hash| == HASH && Levels(levels) && 0 < n <= |levels|
    ensures Directories(levels, hash, n) <= text <==>
            Directories(levels, hash, n - 1) <= text && NamedAt(text, levels, hash, n - 1)
  {
    var offset, tail, level := Digits(levels, n - 1) + n - 1, HASH - Digits(levels, n), levels[n - 1];
    var names, name := Directories(levels, hash, n - 1), hash[tail..tail + level];
    NameFollows(text, offset, names, level, name);
    assert Directories(levels, hash, n) == names + (name + ['/']);
  }

  /** The text begins with the names of the directories exactly if each level has the right one. */
  lemma {:induction false} EachLevel(text: Bytes, levels: seq<nat>, hash: Bytes, n: nat)
    requires |hash| == HASH && Levels(levels) && n <= |levels|
    ensures Directories(levels, hash, n) <= text <==> forall k :: 0 <= k < n ==> NamedAt(text, levels, hash, k)
  {
    if n > 0 {
      EachLevel(text, levels, hash, n - 1);
      OneLevel(text, levels, hash, n);
    }
  }

  /** What refresh_canonical accepts, for a path the walk built below the root. */
  method IsCanonical(path: Bytes, root: Bytes, levels: seq<nat>) returns (r: bool)
    requires Levels(levels) && |path| >= HASH && root + ['/'] <= path
    ensures r <==> path == Place32(root, levels, HashOf(path))
  {
    var hash := HashOf(path);
    ghost var names := Directories(levels, hash, |levels|);
    Associative(root + ['/'], names, hash);
    SplitAfter(path, root + ['/'], names + hash);
    SplitAfter(path[|root| + 1..], names, hash);
    EachLevel(path[|root| + 1..], levels, hash, |levels|);
    if |path| != |root| + 1 + Digits(levels, |levels|) + |levels| + HASH {
      return false;
    }
    r := DirectoriesMatch(path[|root| + 1..], levels, hash);
  }

  method DirectoriesMatch(rest: Bytes, levels: seq<nat>, hash: Bytes) returns (r: bool)
    requires Levels(levels) && |hash| == HASH && |rest| == Digits(levels, |levels|) + |levels| + HASH
    ensures r <==> forall k :: 0 <= k < |levels| ==> NamedAt(rest, levels, hash, k)
  {
    var offset, tail, i := 0, HASH, 0;
    while i < |levels|
      invariant i <= |levels| && offset == Digits(levels, i) + i && tail == HASH - Digits(levels, i)
      invariant forall k :: 0 <= k < i ==> NamedAt(rest, levels, hash, k)
    {
      var level := levels[i];
      tail := tail - level;
      DigitsGrow(levels, i + 1, |levels|);
      if rest[offset..offset + level] != hash[tail..tail + level] || rest[offset + level] != '/' {
        assert !NamedAt(rest, levels, hash, i);
        return false;
      }
      assert NamedAt(rest, levels, hash, i);
      offset := offset + level + 1;
      i := i + 1;
    }
    return true;
  }

  /** With levels of one and two digits the file lies below the last digit, and below the two before it. */
  lemma PlaceByExample(root: Bytes, hash: Bytes)
    requires HexHash(hash)
    ensures Place32(root, [1, 2], hash) == root + ['/', hash[31], '/', hash[29], hash[30], '/'] + hash
    ensures Place32(root, [], hash) == root + ['/'] + hash
  {
    var levels := [1, 2];
    assert Digits(levels, 0) == 0 && Digits(levels, 1) == 1 && Digits(levels, 2) == 3;
    assert Directories(levels, hash, 1) == [hash[31], '/'];
    assert Directories(levels, hash, 2) == [hash[31], '/', hash[29], hash[30], '/'];
  }

  /** Every hash has a place, and the file there is a cache file of that hash. */
  lemma PlaceIsCacheFile(root: Bytes, levels: seq<nat>, hash: Bytes)
    requires HexHash(hash) && Levels(levels)
    ensures CacheFile(Place32(root, levels, hash)) && HashOf(Place32(root, levels, hash)) == hash
  {
    var path, names := Place32(root, levels, hash), Directories(levels, hash, |levels|);
    assert path == (root + ['/'] + names) + hash;
    assert names != [] ==> names[|names| - 1] == '/';
    assert path[|path| - HASH..] == hash;
    forall i | |path| - HASH <= i < |path|
      ensures IsHex(path[i])
    {
      assert path[i] == hash[i - (|path| - HASH)];
    }
  }

  // ---- the selector ----

  /** A trailing `*` selects by case-folded prefix; otherwise the logical key must be the filter itself. */
  predicate Wanted(filter: Bytes, logical: Bytes) {
    if filter != [] && filter[|filter| - 1] == '*' then
      Fold(filter[..|filter| - 1]) <= Fold(logical)
    else logical == filter
  }

  method Wants(filter: Bytes, logical: Bytes) returns (r: bool)
    ensures r <==> Wanted(filter, logical)
  {
    var len := |filter|;
    if len != 0 && filter[len - 1] == '*' {
      len := len - 1;
      if |logical| < len {
        return false;
      }
      FoldTake(logical, len);
      assert Fold(logical)[..len] == Fold(filter[..len]) <==> Fold(filter[..len]) <= Fold(logical);
      return Fold(logical[..len]) == Fold(filter[..len]);
    }
    return logical == filter;
  }

  /** A page selects what a purge of the same selector covers, except that an empty selector purges everything. */
  lemma WantedIsCovered(filter: Bytes, logical: Bytes)
    ensures (Wanted(filter, logical) <==> Covers(Requested(filter, false, false), logical)) <==>
            filter != [] || logical == []
  {
    if filter != [] && filter[|filter| - 1] == '*' {
      assert filter[..|filter| - 1] == [] ==> Fold(filter[..|filter| - 1]) == [];
    }
  }

  // ---- the table of entries ----

  function RanksOf(es: seq<Entry>): (r: seq<nat>)
    ensures |r| == |es|
  {
    seq(|es|, i requires 0 <= i < |es| => Rank(es[i].hash))
  }

  function HashesOf(es: seq<Entry>): (hs: seq<Bytes>)
    ensures |hs| == |es|
  {
    seq(|es|, i requires 0 <= i < |es| => es[i].hash)
  }

  ghost predicate Hashed(es: seq<Entry>) {
    forall i :: 0 <= i < |es| ==> |es[i].hash| == HASH
  }

  /** What the table makes of an entry; on the ranks this is `PageSelection.Place`. */
  function Offered(es: seq<Entry>, e: Entry): (r: seq<Entry>)
    requires |es| <= BATCH
    ensures |r| <= BATCH
  {
    if Rank(e.hash) in RanksOf(es) then es
    else if |es| < BATCH then es + [e]
    else
      var m := Largest(RanksOf(es), |es|);
      if Rank(e.hash) >= RanksOf(es)[m] then es else es[m := e]
  }

  ghost predicate AllPending(es: seq<Entry>) {
    forall i :: 0 <= i < |es| ==> es[i].result == Pending
  }

  lemma OfferedPending(es: seq<Entry>, e: Entry)
    requires AllPending(es) && e.result == Pending && |es| <= BATCH
    ensures AllPending(Offered(es, e))
  {
  }

  /** The files of a walk, with what reading them gives. */
  function Reading(files: seq<Bytes>, read: Bytes -> FileKey): (r: seq<(Bytes, FileKey)>)
    ensures |r| == |files|
  {
    seq(|files|, i requires 0 <= i < |files| => (files[i], read(files[i])))
  }

  lemma OfferedRanks(es: seq<Entry>, more: bool, e: Entry)
    requires |es| <= BATCH && Hashed(es) && |e.hash| == HASH
    ensures RanksOf(Offered(es, e)) == Place(RanksOf(es), more, Rank(e.hash)).0 && Hashed(Offered(es, e))
  {
  }

  class RefreshScan {
    const root: Bytes
    const levels: seq<nat>
    const filter: Bytes
    const after: Bytes
    const protection: Option<seq<Bytes>>
    const paths: Option<seq<ConfiguredPath>>
    const space: GenerationState
    const entries: array<Entry>
    var count: nat
    var more: bool
    var scanErrors: nat
    ghost var offers: seq<nat>  // the ranks of all candidates so far

    ghost predicate Valid()
      reads this, entries
    {
      && Levels(levels) && |after| == HASH
      && entries.Length == BATCH && count <= BATCH
      && Hashed(entries[..count])
      && Selected(RanksOf(entries[..count]), more, Members(offers))
      && (forall h :: h in offers ==> h > Rank(after))
    }

    constructor (root: Bytes, levels: seq<nat>, filter: Bytes, after: Bytes, protection: Option<seq<Bytes>>,
                 paths: Option<seq<ConfiguredPath>>, space: GenerationState)
      requires Levels(levels) && |after| == HASH
      ensures Valid() && offers == [] && count == 0 && !more && scanErrors == 0 && fresh(entries)
      ensures this.root == root && this.levels == levels && this.filter == filter && this.after == after
      ensures this.protection == protection && this.paths == paths && this.space == space
    {
      this.root, this.levels, this.filter, this.after := root, levels, filter, after;
      this.protection, this.paths, this.space := protection, paths, space;
      entries := new Entry[BATCH](_ => Entry([], [], Header(false, [], 0), 0, Pending));
      count, more, scanErrors, offers := 0, false, 0, [];
    }

    /** The file at `path` is one this page is looking for, as far as its name tells. */
    predicate Eligible(path: Bytes)
      requires Levels(levels)
    {
      && CacheFile(path) && !Protected(path, root, Guarded(protection, paths))
      && path == Place32(root, levels, HashOf(path)) && Rank(HashOf(path)) > Rank(after)
    }

    /** All these files are below the root. */
    predicate Under(files: seq<(Bytes, FileKey)>) {
      forall i :: 0 <= i < |files| ==> root + ['/'] <= files[i].0
    }

    /** The entry a visited file contributes. */
    ghost function Candidate(path: Bytes, file: FileKey): Option<Entry>
      requires Levels(levels)
      reads space
    {
      if !Eligible(path) || !file.Readable? then None
      else if !IsCurrent(space.name, space.epoch, space.log, file.key) then None
      else if !Wanted(filter, GenerationKey.Decode(space.name, file.key).parts.logical) then None
      else Some(Entry(HashOf(path), file.key, file.header, 0, Pending))
    }

    /**
     What a page lists, for a selector that is not empty: the files in their proper place above the cursor whose
     key is the one a request would use now, and which a purge with this selector would raise.
     */
    lemma ListedExactly(path: Bytes, file: FileKey)
      requires Levels(levels) && filter != []
      ensures Candidate(path, file).Some? <==>
              && file.Readable? && CacheFile(path) && !Protected(path, root, Guarded(protection, paths))
              && path == Place32(root, levels, HashOf(path)) && Rank(HashOf(path)) > Rank(after)
              && exists logical: Bytes ::
                   && GenerationKey.Decode(space.name, file.key) ==
                      GenerationKey.Key(GenerationKey.Parts(space.epoch, Live(space.log, logical), logical))
                   && Covers(Requested(filter, false, false), logical)
      ensures Candidate(path, file).Some? ==>
                Candidate(path, file).value == Entry(HashOf(path), file.key, file.header, 0, Pending)
    {
      if file.Readable? && GenerationKey.WellFormed(space.name, file.key) {
        WantedIsCovered(filter, GenerationKey.Decode(space.name, file.key).parts.logical);
      }
    }

    /** The ranks that a sequence of visited files contributes. */
    ghost function RanksIn(files: seq<(Bytes, FileKey)>): seq<nat>
      requires Levels(levels)
      reads space
    {
      Flat(PartsOf(files))
    }

    ghost function PartsOf(files: seq<(Bytes, FileKey)>): (parts: seq<seq<nat>>)
      requires Levels(levels)
      reads space
      ensures |parts| == |files|
    {
      seq(|files|, i requires 0 <= i < |files| reads space => RankOf(files[i].0, files[i].1))
    }

    ghost function RankOf(path: Bytes, file: FileKey): seq<nat>
      requires Levels(levels)
      reads space
    {
      match Candidate(path, file)
      case None => []
      case Some(e) => [Rank(e.hash)]
    }

    lemma RanksGrow(files: seq<(Bytes, FileKey)>, i: nat)
      requires Levels(levels) && i < |files|
      ensures RanksIn(files[..i + 1]) == RanksIn(files[..i]) + RankOf(files[i].0, files[i].1)
    {
      var part := RankOf(files[i].0, files[i].1);
      assert PartsOf(files[..i + 1]) == PartsOf(files[..i]) + [part];
      FlatOne(PartsOf(files[..i]), part);
    }

    lemma RanksJoin(a: seq<(Bytes, FileKey)>, b: seq<(Bytes, FileKey)>)
      requires Levels(levels)
      ensures RanksIn(a + b) == RanksIn(a) + RanksIn(b)
    {
      forall i | 0 <= i < |a + b|
        ensures PartsOf(a + b)[i] == (PartsOf(a) + PartsOf(b))[i]
      {
        assert (a + b)[i] == if i < |a| then a[i] else b[i - |a|];
      }
      assert PartsOf(a + b) == PartsOf(a) + PartsOf(b);
      FlatJoin(PartsOf(a), PartsOf(b));
    }

    lemma RanksInExactly(files: seq<Bytes>, read: Bytes -> FileKey, r: nat)
      requires Levels(levels)
      ensures r in RanksIn(Reading(files, read)) <==> exists path :: path in files && r in RankOf(path, read(path))
    {
      var parts := PartsOf(Reading(files, read));
      FlatMember(parts, r);
      assert forall i :: 0 <= i < |files| ==> parts[i] == RankOf(files[i], read(files[i]));
      if path :| path in files && r in RankOf(path, read(path)) {
        var i :| 0 <= i < |files| && files[i] == path;
        assert r in parts[i];
      }
      if i :| 0 <= i < |parts| && r in parts[i] {
        assert files[i] in files;
      }
    }

    /** The ranks of the candidates in a tree. */
    ghost predicate InTree(d: W.Dir, read: Bytes -> FileKey, r: nat)
      requires Levels(levels)
      reads space
    {
      exists path :: path in W.Files(d, root) && r in RankOf(path, read(path))
    }

    /** A walk of the cache that reports no error offers exactly the candidates among the files of the tree. */
    lemma WalkOffersTheTree(c: W.Config, d: W.Dir, room: bool, capacity: nat, read: Bytes -> FileKey, r: nat)
      requires Levels(levels) && root != [] && c == W.Config(root, Guarded(protection, paths), true)
      requires W.WalkRoot(c, d, room, capacity).errors == 0
      ensures r in RanksIn(Reading(W.Visits(W.WalkRoot(c, d, room, capacity).trace), read)) <==> InTree(d, read, r)
    {
      var trace := W.WalkRoot(c, d, room, capacity).trace;
      RanksInExactly(W.Visits(trace), read, r);
      forall path | r in RankOf(path, read(path))
        ensures path in W.Visits(trace) <==> path in W.Files(d, root)
      {
        W.VisitsExactly(trace, path);
        W.VisitedExactly(c, d, room, capacity, path);
      }
    }

    method Compare(hash: Bytes, i: nat, largest: nat) returns (same: bool, larger: bool)
      requires count <= entries.Length && Hashed(entries[..count]) && |hash| == HASH && largest <= i < count
      ensures same <==> RanksOf(entries[..count])[i] == Rank(hash)
      ensures larger <==> RanksOf(entries[..count])[i] > RanksOf(entries[..count])[largest]
    {
      ghost var es := entries[..count];
      assert es[i] == entries[i] && es[largest] == entries[largest];
      var order := Memcmp(hash, entries[i].hash);
      same := order == 0;
      order := Memcmp(entries[i].hash, entries[largest].hash);
      larger := order > 0;
    }

    /** The table's loop: find the hash, or else the largest entry. */
    method Search(hash: Bytes) returns (found: bool, largest: nat)
      requires count <= entries.Length && Hashed(entries[..count]) && |hash| == HASH
      ensures found <==> Rank(hash) in RanksOf(entries[..count])
      ensures !found ==> largest == Largest(RanksOf(entries[..count]), count)
    {
      ghost var rs, h := RanksOf(entries[..count]), Rank(hash);
      var i := 0;
      found, largest := false, 0;
      while i < count && !found
        invariant i <= count && largest == Largest(rs, i) && (i > 0 ==> largest < i)
        invariant forall j :: 0 <= j < i ==> rs[j] != h
        invariant found ==> i < count && rs[i] == h
        decreases count - i, !found
      {
        var same, larger := Compare(hash, i, largest);
        if same {
          found := true;
        } else {
          if larger {
            largest := i;
          }
          i := i + 1;
        }
      }
    }

    /** A matching file joins the table, replaces its largest entry, or only sets `more`. */
    method Offer(e: Entry)
      requires Valid() && |e.hash| == HASH && Rank(e.hash) > Rank(after)
      modifies this`count, this`more, this`offers, entries
      ensures Valid() && offers == old(offers) + [Rank(e.hash)]
      ensures entries[..count] == Offered(old(entries[..count]), e)
    {
      ghost var es := entries[..count];
      OfferedRanks(es, more, e);
      PlaceKeepsSelected(RanksOf(es), more, Members(offers), Rank(e.hash));
      assert Members(offers + [Rank(e.hash)]) == Members(offers) + {Rank(e.hash)};
      var found, largest := Search(e.hash);
      offers := offers + [Rank(e.hash)];
      if !found && count == BATCH {
        more := true;
        assert es[largest] == entries[largest];
        var order := Memcmp(e.hash, entries[largest].hash);
        if order < 0 {
          entries[largest] := e;
        }
      } else if !found {
        entries[count] := e;
        count := count + 1;
      }
      assert entries[..count] == Offered(es, e);
    }

    method IsEligible(path: Bytes) returns (r: bool)
      requires Valid() && root + ['/'] <= path
      ensures r <==> Eligible(path)
    {
      r := IsCacheFile(path);
      if r {
        var guarded := IsProtectedPath(path, root, protection, paths);
        r := !guarded;
      }
      if r {
        r := IsCanonical(path, root, levels);
      }
      if r {
        var order := Memcmp(HashOf(path), after);
        r := order > 0;
      }
    }

    /** refresh_collect: one visited file below the root. */
    method Collect(path: Bytes, file: FileKey)
      requires Valid() && space.Valid() && root + ['/'] <= path
      modifies this`count, this`more, this`offers, this`scanErrors, entries
      ensures Valid()
      ensures scanErrors == old(scanErrors) + (if Eligible(path) && file == Unreadable then 1 else 0)
      ensures match Candidate(path, file)
              case None => offers == old(offers) && entries[..count] == old(entries[..count])
              case Some(e) =>
                offers == old(offers) + [Rank(e.hash)] && entries[..count] == Offered(old(entries[..count]), e)
    {
      var eligible := IsEligible(path);
      if !eligible {
        return;
      }
      match file {
        case Unreadable => scanErrors := scanErrors + 1;
        case Declined =>
        case Readable(key, header) =>
          var current, logical := space.Current(key);
          if current {
            var wanted := Wants(filter, logical);
            if wanted {
              Offer(Entry(HashOf(path), key, header, 0, Pending));
            }
          }
      }
    }

    /** What one slice of the walk visits. */
    method VisitAll(files: seq<(Bytes, FileKey)>)
      requires Valid() && space.Valid() && Under(files)
      modifies this`count, this`more, this`offers, this`scanErrors, entries
      ensures Valid() && offers == old(offers) + RanksIn(files)
      ensures AllPending(old(entries[..count])) ==> AllPending(entries[..count])
    {
      var i := 0;
      while i < |files|
        invariant i <= |files| && Valid() && space.Valid()
        invariant offers == old(offers) + RanksIn(files[..i])
        invariant AllPending(old(entries[..count])) ==> AllPending(entries[..count])
      {
        RanksGrow(files, i);
        Associative(old(offers), RanksIn(files[..i]), RankOf(files[i].0, files[i].1));
        Visit(files[i].0, files[i].1);
        i := i + 1;
      }
      assert files[..i] == files;
    }

    method Visit(path: Bytes, file: FileKey)
      requires Valid() && space.Valid() && root + ['/'] <= path
      modifies this`count, this`more, this`offers, this`scanErrors, entries
      ensures Valid() && space.Valid() && offers == old(offers) + RankOf(path, file)
      ensures AllPending(old(entries[..count])) ==> AllPending(entries[..count])
    {
      ghost var es, candidate := entries[..count], Candidate(path, file);
      if candidate.Some? && AllPending(es) {
        OfferedPending(es, candidate.value);
      }
      Collect(path, file);
    }

    method SwapAt(j: nat)
      requires Valid() && 0 < j < count
      modifies entries
      ensures Valid() && entries[..count] == Swapped(old(entries[..count]), j)
      ensures RanksOf(entries[..count]) == Swapped(RanksOf(old(entries[..count])), j)
    {
      ghost var es := entries[..count];
      SwapSelected(RanksOf(es), more, Members(offers), j);
      entries[j - 1], entries[j] := entries[j], entries[j - 1];
      assert entries[..count] == Swapped(es, j);
      assert RanksOf(entries[..count]) == Swapped(RanksOf(es), j);
    }

    /** One comparison of the sort: the entry at `j` changes places with the one before it if that is larger. */
    method SinkFrom(i: nat, j: nat) returns (moved: bool)
      requires Valid() && 0 < j <= i < count && Sinking(Ranking(), i + 1, j)
      modifies entries
      ensures Valid() && multiset(entries[..count]) == multiset(old(entries[..count]))
      ensures Sinking(Ranking(), i + 1, if moved then j - 1 else j)
      ensures !moved ==> Ranking()[j - 1] <= Ranking()[j]
    {
      assert entries[..count][j - 1] == entries[j - 1];
      var same, larger := Compare(entries[j - 1].hash, j, j - 1);
      moved := !larger && !same;
      if moved {
        SinkTo(i, j);
      }
    }

    method SinkTo(i: nat, j: nat)
      requires Valid() && 0 < j <= i < count && Sinking(Ranking(), i + 1, j) && Ranking()[j - 1] > Ranking()[j]
      modifies entries
      ensures Valid() && Sinking(Ranking(), i + 1, j - 1)
      ensures multiset(entries[..count]) == multiset(old(entries[..count]))
    {
      SinkStep(Ranking(), i + 1, j);
      SwapMultiset(entries[..count], j);
      SwapAt(j);
    }

    ghost function Ranking(): (rs: seq<nat>)
      requires count <= entries.Length
      reads this, entries
      ensures |rs| == count
    {
      RanksOf(entries[..count])
    }

    /** One entry sinks to its place among the sorted ones before it. */
    method InsertAt(i: nat)
      requires Valid() && i < count && AscendingTo(Ranking(), i)
      modifies entries
      ensures Valid() && AscendingTo(Ranking(), i + 1) && multiset(entries[..count]) == multiset(old(entries[..count]))
    {
      var j: nat, moved := i, true;
      while j > 0 && moved
        invariant j <= i && Valid() && Sinking(Ranking(), i + 1, j)
        invariant multiset(entries[..count]) == multiset(old(entries[..count]))
        invariant moved || j == 0 || Ranking()[j - 1] <= Ranking()[j]
        decreases j, moved
      {
        moved := SinkFrom(i, j);
        if moved {
          j := j - 1;
        }
      }
      Sunk(Ranking(), i + 1, j);
    }

    /** The insertion sort of a completed scan. */
    method Sort()
      requires Valid()
      modifies entries
      ensures Valid() && Ascending(RanksOf(entries[..count]))
              && multiset(entries[..count]) == multiset(old(entries[..count]))
    {
      var i := 0;
      while i < count
        invariant i <= count && Valid() && AscendingTo(Ranking(), i)
        invariant multiset(entries[..count]) == multiset(old(entries[..count]))
      {
        InsertAt(i);
        i := i + 1;
      }
    }

    /** Record the progress of one entry; its hash and place stay. */
    method Mark(i: nat, status: nat, result: Outcome)
      requires Valid() && i < count
      modifies entries
      ensures Valid() && RanksOf(entries[..count]) == old(RanksOf(entries[..count]))
      ensures entries[..count] == old(entries[..count])[i := old(entries[i]).(status := status, result := result)]
    {
      ghost var es := entries[..count];
      entries[i] := entries[i].(status := status, result := result);
      assert entries[..count] == es[i := es[i].(status := status, result := result)];
      assert RanksOf(entries[..count]) == RanksOf(es);
    }
  }
}
