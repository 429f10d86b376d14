/**
 The bounded table behind a REFRESH page, on the ranks of the hashes: whatever is offered, in whatever
 order and however often, it keeps the 32 smallest and says whether there were others.
 */
module PageSelection {
  import opened Sequences

  const BATCH: nat := 32  // NGX_CACHE_PURGE_REFRESH_BATCH

  /** The position of the largest of the first `n` ranks; the first one of equals. */
  function Largest(rs: seq<nat>, n: nat): (m: nat)
    requires n <= |rs|
    ensures n > 0 ==> m < n && forall i :: 0 <= i < n ==> rs[i] <= rs[m]
  {
    if n <= 1 then 0
    else
      var m := Largest(rs, n - 1);
      if rs[n - 1] > rs[m] then n - 1 else m
  }

  /** What the table makes of a candidate: its ranks, and whether a candidate did not fit. */
  function Place(rs: seq<nat>, more: bool, h: nat): (r: (seq<nat>, bool))
    requires |rs| <= BATCH
    ensures |r.0| <= BATCH
  {
    if h in rs then (rs, more)
    else if |rs| < BATCH then (rs + [h], more)
    else
      var m := Largest(rs, |rs|);
      (if h >= rs[m] then rs else rs[m := h], true)
  }

  ghost predicate Distinct(rs: seq<nat>) {
    forall i, j :: 0 <= i < j < |rs| ==> rs[i] != rs[j]
  }

  /** Every rank of the table is smaller than `r`. */
  ghost predicate Above(r: nat, rs: seq<nat>) {
    forall i :: 0 <= i < |rs| ==> rs[i] < r
  }

  /** The table holds the smallest 32 of the ranks seen, and `more` says that there were others. */
  ghost predicate Selected(rs: seq<nat>, more: bool, seen: set<nat>) {
    && Distinct(rs) && |rs| <= BATCH
    && (forall r :: r in rs ==> r in seen)
    && (forall r {:trigger Above(r, rs)} :: r in seen && r !in rs ==> Above(r, rs))
    && (more <==> exists r :: r in seen && r !in rs)
    && (more ==> |rs| == BATCH)
  }

  function Members(rs: seq<nat>): set<nat> {
    set r | r in rs
  }

  lemma {:induction false} DistinctCount(rs: seq<nat>)
    requires Distinct(rs)
    ensures |Members(rs)| == |rs|
  {
    if rs != [] {
      var n := |rs| - 1;
      var rest, last := rs[..n], rs[n];
      DistinctCount(rest);
      assert last !in Members(rest);
      assert Members(rs) == Members(rest) + {last} by {
        assert rs == rest + [last];
      }
    }
  }

  /**
   `more` is set exactly when more than 32 distinct ranks were seen; the table is full then, and complete
   otherwise.
   */
  lemma MoreMeansOverflow(rs: seq<nat>, more: bool, seen: set<nat>)
    requires Selected(rs, more, seen)
    ensures more <==> |seen| > BATCH
    ensures |rs| == if |seen| > BATCH then BATCH else |seen|
  {
    DistinctCount(rs);
    var others := seen - Members(rs);
    assert seen == Members(rs) + others;
    if more {
      var r :| r in seen && r !in rs;
      assert r in others;
    } else {
      assert others == {};
    }
  }

  lemma AppendSelected(rs: seq<nat>, more: bool, seen: set<nat>, h: nat)
    requires Selected(rs, more, seen) && h !in rs && |rs| < BATCH
    ensures Selected(rs + [h], more, seen + {h})
  {
  }

  lemma RejectSelected(rs: seq<nat>, more: bool, seen: set<nat>, h: nat, m: nat)
    requires Selected(rs, more, seen) && h !in rs && |rs| == BATCH
    requires m < |rs| && (forall i :: 0 <= i < |rs| ==> rs[i] <= rs[m]) && h >= rs[m]
    ensures Selected(rs, true, seen + {h})
  {
    assert rs[m] in rs;
    assert Above(h, rs);
    assert h in seen + {h} && h !in rs;
  }

  lemma ReplaceSelected(rs: seq<nat>, more: bool, seen: set<nat>, h: nat, m: nat)
    requires Selected(rs, more, seen) && h !in rs && |rs| == BATCH
    requires m < |rs| && (forall i :: 0 <= i < |rs| ==> rs[i] <= rs[m]) && h < rs[m]
    ensures Selected(rs[m := h], true, seen + {h})
  {
    var rs', top := rs[m := h], rs[m];
    assert forall i :: 0 <= i < |rs| && i != m ==> rs'[i] == rs[i] && rs[i] < top;
    assert top in rs && top !in rs' && rs'[m] == h;
    forall r | r in seen + {h} && r !in rs'
      ensures Above(r, rs')
    {
      if r in rs {
        assert r == top;
      } else {
        assert Above(r, rs);
      }
    }
    forall r | r in rs'
      ensures r in seen + {h}
    {
      var i :| 0 <= i < |rs'| && rs'[i] == r;
      assert i != m ==> rs[i] in rs;
    }
    assert top in seen + {h};
  }

  /** One candidate more: the table keeps the smallest of all candidates so far. */
  lemma PlaceKeepsSelected(rs: seq<nat>, more: bool, seen: set<nat>, h: nat)
    requires Selected(rs, more, seen)
    ensures var r := Place(rs, more, h); Selected(r.0, r.1, seen + {h})
  {
    if h in rs {
      assert seen + {h} == seen;
    } else if |rs| < BATCH {
      AppendSelected(rs, more, seen, h);
    } else {
      var m := Largest(rs, |rs|);
      if h >= rs[m] {
        RejectSelected(rs, more, seen, h, m);
      } else {
        ReplaceSelected(rs, more, seen, h, m);
      }
    }
  }

  // ---- a whole scan ----

  function Placed(offers: seq<nat>): (r: (seq<nat>, bool))
    ensures |r.0| <= BATCH
  {
    if offers == [] then ([], false)
    else
      var r := Placed(offers[..|offers| - 1]);
      Place(r.0, r.1, offers[|offers| - 1])
  }

  /** After any scan the table is the selection of everything the scan offered. */
  lemma {:induction false} ScanSelects(offers: seq<nat>)
    ensures Selected(Placed(offers).0, Placed(offers).1, Members(offers))
  {
    if offers != [] {
      var n := |offers| - 1;
      ScanSelects(offers[..n]);
      var r := Placed(offers[..n]);
      PlaceKeepsSelected(r.0, r.1, Members(offers[..n]), offers[n]);
      assert offers == offers[..n] + [offers[n]];
      assert Members(offers) == Members(offers[..n]) + {offers[n]};
    }
  }

  // ---- sorting ----

  ghost predicate Ascending(rs: seq<nat>) {
    forall i, j :: 0 <= i < j < |rs| ==> rs[i] < rs[j]
  }

  lemma NotSmaller(p: seq<nat>, q: seq<nat>, more: bool, seen: set<nat>, i: nat)
    requires Selected(p, more, seen) && Selected(q, more, seen) && Ascending(p) && Ascending(q) && |p| == |q|
    requires i < |p| && p[..i] == q[..i]
    ensures p[i] >= q[i]
  {
    assert p[i] in p;
    assert forall j :: 0 <= j < i ==> p[j] == p[..i][j] == q[..i][j] == q[j];
    if p[i] in q {
      var j :| 0 <= j < |q| && q[j] == p[i];
    } else {
      assert Above(p[i], q);
    }
  }

  /** What was seen determines the sorted page. */
  lemma PageIsUnique(p: seq<nat>, q: seq<nat>, more: bool, seen: set<nat>)
    requires Selected(p, more, seen) && Selected(q, more, seen) && Ascending(p) && Ascending(q)
    ensures p == q
  {
    MoreMeansOverflow(p, more, seen);
    MoreMeansOverflow(q, more, seen);
    if p != q {
      var i := FirstMismatch(p, q);
      NotSmaller(p, q, more, seen, i);
      NotSmaller(q, p, more, seen, i);
    }
  }

  // ---- sorting keeps the selection ----

  function Swapped<T>(s: seq<T>, j: nat): (r: seq<T>)
    requires 0 < j < |s|
    ensures |r| == |s|
  {
    s[j - 1 := s[j]][j := s[j - 1]]
  }

  lemma SwapMultiset<T>(s: seq<T>, j: nat)
    requires 0 < j < |s|
    ensures multiset(Swapped(s, j)) == multiset(s)
  {
    assert s == s[..j - 1] + [s[j - 1], s[j]] + s[j + 1..];
    assert Swapped(s, j) == s[..j - 1] + [s[j], s[j - 1]] + s[j + 1..];
  }

  lemma SwapSelected(rs: seq<nat>, more: bool, seen: set<nat>, j: nat)
    requires Selected(rs, more, seen) && 0 < j < |rs|
    ensures Selected(Swapped(rs, j), more, seen)
  {
    var rs' := Swapped(rs, j);
    SwapMultiset(rs, j);
    forall r
      ensures r in rs' <==> r in rs
    {
      assert r in rs' <==> r in multiset(rs');
      assert r in rs <==> r in multiset(rs);
    }
    forall r | r in seen && r !in rs'
      ensures Above(r, rs')
    {
      assert Above(r, rs);
    }
  }

  /** The first `n` ranks are ascending, */
  ghost predicate AscendingTo(rs: seq<nat>, n: nat) {
    forall a, b :: 0 <= a < b < n <= |rs| ==> rs[a] < rs[b]
  }

  /** except that the one at `j` may still be too small for its place. */
  ghost predicate Sinking(rs: seq<nat>, n: nat, j: nat) {
    && j < n <= |rs|
    && (forall a, b :: 0 <= a < b < n && a != j && b != j ==> rs[a] < rs[b])
    && (forall b :: j < b < n ==> rs[j] < rs[b])
  }

  lemma SinkStep(rs: seq<nat>, n: nat, j: nat)
    requires Sinking(rs, n, j) && 0 < j && rs[j - 1] > rs[j]
    ensures Sinking(Swapped(rs, j), n, j - 1)
  {
  }

  lemma Sunk(rs: seq<nat>, n: nat, j: nat)
    requires Sinking(rs, n, j) && Distinct(rs) && (j > 0 ==> rs[j - 1] <= rs[j])
    ensures AscendingTo(rs, n)
  {
    forall a, b | 0 <= a < b < n
      ensures rs[a] < rs[b]
    {
      if b == j {
        assert a < j - 1 ==> rs[a] < rs[j - 1];
      }
    }
  }
}
