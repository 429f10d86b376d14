/**
 The path helpers of ngx_cache_purge.h on a POSIX, case-sensitive file system, and the protected
 paths that ngx_http_cache_purge_is_protected_path keeps a cleanup walk away from.
 */
module Paths {
  import opened Bytes

  predicate Separator(c: Byte) {
    c == '/'
  }

  // ---- lengths and comparison ----

  /** The length without trailing separators; at least one byte of a non-empty path is kept. */
  function Trim(path: Bytes): (n: nat)
    ensures n <= |path| && (path != [] ==> 0 < n)
  {
    if |path| > 1 && Separator(path[|path| - 1]) then Trim(path[..|path| - 1]) else |path|
  }

  /** Trimming stops at the last byte that is not a separator and removes nothing else. */
  lemma {:induction false} TrimStops(path: Bytes)
    ensures Trim(path) > 1 ==> !Separator(path[Trim(path) - 1])
    ensures forall i :: Trim(path) <= i < |path| ==> Separator(path[i])
  {
    if |path| > 1 && Separator(path[|path| - 1]) {
      TrimStops(path[..|path| - 1]);
    }
  }

  method PathLength(path: Bytes) returns (len: nat)
    ensures len == Trim(path)
  {
    len := |path|;
    assert path[..len] == path;
    while len > 1 && Separator(path[len - 1])
      invariant len <= |path| && Trim(path[..len]) == Trim(path)
    {
      assert path[..len][..len - 1] == path[..len - 1];
      len := len - 1;
    }
  }

  method PathEqual(a: Bytes, b: Bytes, len: nat) returns (same: bool)
    requires len <= |a| && len <= |b|
    ensures same <==> a[..len] == b[..len]
  {
    var i := 0;
    while i < len
      invariant i <= len && a[..i] == b[..i]
    {
      if a[i] != b[i] {
        assert a[..len][i] != b[..len][i];
        return false;
      }
      i := i + 1;
    }
    return true;
  }

  /** `path` is `root` or lies below it. */
  predicate Contains(path: Bytes, root: Bytes) {
    var len := Trim(root);
    && len != 0 && len <= |path| && path[..len] == root[..len]
    && (|path| == len || Separator(root[len - 1]) || Separator(path[len]))
  }

  method PathContains(path: Bytes, root: Bytes) returns (r: bool)
    ensures r <==> Contains(path, root)
  {
    var len := PathLength(root);
    if len == 0 || |path| < len {
      return false;
    }
    var same := PathEqual(path, root, len);
    return same && (|path| == len || Separator(root[len - 1]) || Separator(path[len]));
  }

  lemma ContainsItself(path: Bytes)
    requires path != []
    ensures Contains(path, path)
  {
    TrimStops(path);
  }

  lemma ContainsTransitive(a: Bytes, b: Bytes, c: Bytes)
    requires Contains(a, b) && Contains(b, c)
    ensures Contains(a, c)
  {
    TrimStops(b);
    TrimStops(c);
    var m, n := Trim(b), Trim(c);
    assert forall i :: 0 <= i < n ==> b[i] == b[..n][i] == c[..n][i] == c[i];
    assert n <= m;
    assert a[..n] == a[..m][..n] == b[..m][..n] == b[..n];
    if m > n && !Separator(c[n - 1]) {
      assert a[n] == a[..m][n] == b[..m][n];
    }
  }

  /** An entry of a directory lies below it and below everything the directory lies below. */
  lemma EntryContained(dir: Bytes, name: Bytes, root: Bytes)
    requires Contains(dir, root)
    ensures Contains(dir + ['/'] + name, dir) && Contains(dir + ['/'] + name, root)
  {
    TrimStops(dir);
    var path := dir + ['/'] + name;
    assert path[..Trim(dir)] == dir[..Trim(dir)];
    ContainsTransitive(path, dir, root);
  }

  // ---- what containment means: a prefix of the components ----

  predicate Component(c: Bytes) {
    c != [] && '/' !in c
  }

  ghost predicate Components(cs: seq<Bytes>) {
    forall i {:trigger cs[i]} :: 0 <= i < |cs| ==> Component(cs[i])
  }

  function Joined(cs: seq<Bytes>): Bytes {
    if cs == [] then [] else ['/'] + cs[0] + Joined(cs[1..])
  }

  /** The absolute path with these components. */
  function Text(cs: seq<Bytes>): Bytes {
    if cs == [] then "/" else Joined(cs)
  }

  function Slashes(k: nat): Bytes {
    if k == 0 then [] else Slashes(k - 1) + ['/']
  }

  lemma {:induction false} TrimSlashes(path: Bytes, k: nat)
    requires path != [] && (|path| == 1 || !Separator(path[|path| - 1]))
    ensures Trim(path + Slashes(k)) == |path| && (path + Slashes(k))[..|path|] == path
  {
    if k == 0 {
      assert path + Slashes(0) == path;
    } else {
      TrimSlashes(path, k - 1);
      var shorter := path + Slashes(k - 1);
      assert path + Slashes(k) == shorter + ['/'];
      TrimSlash(shorter);
      assert (shorter + ['/'])[..|path|] == shorter[..|path|];
    }
  }

  lemma TrimSlash(path: Bytes)
    requires path != []
    ensures Trim(path + ['/']) == Trim(path)
  {
    assert (path + ['/'])[..|path|] == path;
  }

  lemma {:induction false} JoinedEnds(cs: seq<Bytes>)
    requires Components(cs) && cs != []
    ensures |Joined(cs)| > 1 && !Separator(Joined(cs)[|Joined(cs)| - 1])
  {
    if |cs| == 1 {
      assert Joined(cs) == ['/'] + cs[0] + Joined(cs[1..]);
      assert Joined(cs[1..]) == [];
      assert Joined(cs)[|Joined(cs)| - 1] == cs[0][|cs[0]| - 1];
    } else {
      JoinedEnds(cs[1..]);
      assert Joined(cs)[|Joined(cs)| - 1] == Joined(cs[1..])[|Joined(cs[1..])| - 1];
    }
  }

  /** `t` continues `s` at a component boundary. */
  predicate Continues(t: Bytes, s: Bytes) {
    s <= t && (|t| == |s| || Separator(t[|s|]))
  }

  lemma JoinedFirst(cs: seq<Bytes>)
    requires Components(cs) && cs != []
    ensures Joined(cs[1..]) == [] || Joined(cs[1..])[0] == '/'
    ensures forall i :: 0 <= i < |cs[0]| ==> Joined(cs)[1 + i] == cs[0][i]
    ensures |Joined(cs)| == 1 + |cs[0]| + |Joined(cs[1..])|
    ensures Joined(cs)[1 + |cs[0]|..] == Joined(cs[1..])
  {
  }

  /** Two joined paths that agree on a prefix ending at a boundary begin with the same component. */
  lemma SameFirst(a: seq<Bytes>, b: seq<Bytes>)
    requires Components(a) && Components(b) && a != [] && b != []
    requires Continues(Joined(a), Joined(b))
    ensures a[0] == b[0] && Continues(Joined(a[1..]), Joined(b[1..]))
  {
    JoinedFirst(a);
    JoinedFirst(b);
    var s, t := Joined(b), Joined(a);
    forall i | 0 <= i < |s|
      ensures t[i] == s[i]
    {
    }
    var x, y := a[0], b[0];
    assert Component(x) && Component(y);
    assert |x| < |y| ==> '/' in y;
    assert |y| < |x| ==> '/' in x;
    assert x == y;
    assert Joined(a[1..]) == t[1 + |x|..] && Joined(b[1..]) == s[1 + |x|..];
  }

  lemma {:induction false} ContinuesIsPrefix(a: seq<Bytes>, b: seq<Bytes>)
    requires Components(a) && Components(b)
    ensures Continues(Joined(a), Joined(b)) <==> b <= a
  {
    if b == [] {
    } else if a == [] {
      JoinedEnds(b);
    } else {
      ContinuesIsPrefix(a[1..], b[1..]);
      if Continues(Joined(a), Joined(b)) {
        SameFirst(a, b);
        assert a == [a[0]] + a[1..] && b == [b[0]] + b[1..];
      }
      if b <= a {
        assert b[1..] <= a[1..];
        assert Joined(a) == ['/'] + a[0] + Joined(a[1..]) && Joined(b) == ['/'] + b[0] + Joined(b[1..]);
      }
    }
  }

  /**
   Containment respects component boundaries and ignores trailing separators of the root: for
   absolute paths written without empty components it is exactly the prefix order on components.
   */
  lemma ContainsIsComponentPrefix(a: seq<Bytes>, b: seq<Bytes>, k: nat)
    requires Components(a) && Components(b)
    ensures Contains(Text(a), Text(b) + Slashes(k)) <==> b <= a
  {
    if b != [] {
      JoinedEnds(b);
    }
    TrimSlashes(Text(b), k);
    if b == [] {
      assert Text(a)[0] == '/';
    } else {
      ContinuesIsPrefix(a, b);
    }
  }

  // ---- protected paths ----

  // An entry of the configured path list; a path with a manager or a loader is a cache, not a temporary path.
  datatype ConfiguredPath = ConfiguredPath(name: Bytes, managed: bool)

  /** The names the walk must respect: the captured protection, or else the configured paths. */
  function Guarded(protection: Option<seq<Bytes>>, paths: Option<seq<ConfiguredPath>>): seq<Bytes> {
    match protection
    case Some(names) => names
    case None => match paths case None => [] case Some(ps) => Unmanaged(ps)
  }

  function Unmanaged(ps: seq<ConfiguredPath>): seq<Bytes> {
    if ps == [] then []
    else Unmanaged(ps[..|ps| - 1]) + (if ps[|ps| - 1].managed then [] else [ps[|ps| - 1].name])
  }

  /** A captured protection is used as it is; otherwise the configured paths that nginx does not manage itself. */
  lemma {:induction false} GuardedExactly(ps: seq<ConfiguredPath>, name: Bytes)
    ensures name in Guarded(None, Some(ps)) <==> ConfiguredPath(name, false) in ps
    ensures Guarded(Some([name]), Some(ps)) == [name] && Guarded(None, None) == []
  {
    if ps != [] {
      var n := |ps| - 1;
      GuardedExactly(ps[..n], name);
      assert ps == ps[..n] + [ps[n]];
    }
  }

  /** A name strictly below the cache root keeps everything below it from the walk. */
  predicate Guards(name: Bytes, path: Bytes, root: Bytes) {
    |name| > Trim(root) && Contains(name, root) && Contains(path, name)
  }

  predicate Protected(path: Bytes, root: Bytes, names: seq<Bytes>) {
    !Contains(path, root) || exists name :: name in names && Guards(name, path, root)
  }

  method IsProtectedPath(path: Bytes, root: Bytes, protection: Option<seq<Bytes>>, paths: Option<seq<ConfiguredPath>>)
    returns (r: bool)
    ensures r <==> Protected(path, root, Guarded(protection, paths))
  {
    var inside := PathContains(path, root);
    if !inside {
      return true;
    }
    var rootLength := PathLength(root);
    var n := if protection.Some? then |protection.value| else if paths.Some? then |paths.value| else 0;
    var j := 0;
    while j < n
      invariant 0 <= j <= n
      invariant protection.Some? ==> forall i :: 0 <= i < j ==> !Guards(protection.value[i], path, root)
      invariant protection.None? && paths.Some? ==>
          forall name :: name in Unmanaged(paths.value[..j]) ==> !Guards(name, path, root)
    {
      var name: Bytes;
      if protection.Some? {
        name := protection.value[j];
      } else {
        assert paths.value[..j + 1][..j] == paths.value[..j];
        if paths.value[j].managed {
          j := j + 1;
          continue;
        }
        name := paths.value[j].name;
      }
      var below := PathContains(name, root);
      var holds := PathContains(path, name);
      if |name| > rootLength && below && holds {
        if protection.None? {
          UnmanagedKept(paths.value, j);
        }
        assert name in Guarded(protection, paths) && Guards(name, path, root);
        return true;
      }
      j := j + 1;
    }
    assert paths.Some? ==> paths.value[..|paths.value|] == paths.value;
    return false;
  }

  lemma {:induction false} UnmanagedKept(ps: seq<ConfiguredPath>, j: nat)
    requires j < |ps| && !ps[j].managed
    ensures ps[j].name in Unmanaged(ps)
  {
    if j < |ps| - 1 {
      UnmanagedKept(ps[..|ps| - 1], j);
    }
  }

  /** Everything below a protected directory is protected: nothing is lost by not opening it. */
  lemma ProtectedBelow(path: Bytes, dir: Bytes, root: Bytes, names: seq<Bytes>)
    requires Contains(dir, root) && Protected(dir, root, names) && Contains(path, dir)
    ensures Protected(path, root, names)
  {
    var name :| name in names && Guards(name, dir, root);
    ContainsTransitive(path, dir, name);
    assert Guards(name, path, root);
  }

  /**
   The cache root itself is protected only by a name that spells the root with more trailing
   separators: such a name counts as below the root because raw lengths are compared.
   */
  lemma RootProtected(root: Bytes, names: seq<Bytes>)
    requires root != []
    ensures Protected(root, root, names) <==>
            exists name :: name in names && |name| > Trim(root) && name[..Trim(name)] == root[..Trim(root)]
  {
    ContainsItself(root);
    TrimStops(root);
    forall name | name in names
      ensures Guards(name, root, root) <==> |name| > Trim(root) && name[..Trim(name)] == root[..Trim(root)]
    {
      RootGuard(root, name);
    }
  }

  lemma RootGuard(root: Bytes, name: Bytes)
    requires root != []
    ensures Guards(name, root, root) <==> |name| > Trim(root) && name[..Trim(name)] == root[..Trim(root)]
  {
    TrimStops(root);
    TrimStops(name);
    var m, n := Trim(name), Trim(root);
    if |name| > n && name[..m] == root[..n] {
      assert |name[..m]| == m && |root[..n]| == n;
      assert name[..n] == root[..n];
    }
    if Guards(name, root, root) {
      assert name[..n] == root[..n] && root[..m] == name[..m];
      assert m == n;
    }
  }
}
