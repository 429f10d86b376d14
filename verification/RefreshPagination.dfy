/**
 A client pages through a cache by feeding `next_cursor` back, which lower-cases it. Pages may time out
 during the scan or between probes, and processed files may disappear or stop matching; the pages together
 never process a file twice, and miss only those that a lower-cased cursor passes over. Files are given by
 the ranks of their hashes, cursors by their text.
 */
module RefreshPagination {
  import opened Bytes
  import opened HashOrder
  import opened PageSelection

  // One page: the matching files its scan would meet, the cursor it began at, whether the scan finished,
  // the sorted table, and how many of its entries were processed before the reply.
  datatype Page = Page(
    candidates: set<nat>, cursor: Bytes, scanned: bool, hashes: seq<Bytes>, more: bool, position: nat)
  {
    function Listing(): seq<nat> {
      Ranks(hashes)
    }

    function Above(): set<nat> {
      set c | c in candidates && c > Rank(cursor)
    }

    ghost predicate Valid() {
      && position <= |hashes|
      && (scanned ==> Selected(Listing(), more, Above()) && Ascending(Listing()))
      && (!scanned ==> position == 0)
    }

    /** The hashes this page processed. */
    function Done(): seq<nat> {
      if position <= |hashes| then Listing()[..position] else []
    }

    /** The cursor of the reply: the last processed hash, or the cursor the page began at. */
    function Next(): Bytes {
      if 0 < position <= |hashes| then hashes[position - 1] else cursor
    }

    /** The `complete` of the reply. */
    predicate Complete() {
      scanned && !more && position == |hashes|
    }
  }

  function Processed(pages: seq<Page>): seq<nat> {
    if pages == [] then [] else Processed(pages[..|pages| - 1]) + pages[|pages| - 1].Done()
  }

  /** Pages chained by their cursors; a candidate is lost between pages only after it was processed. */
  ghost predicate Chain(pages: seq<Page>) {
    && pages != [] && (forall i :: 0 <= i < |pages| ==> pages[i].Valid())
    && forall i {:trigger Linked(pages, i)} :: 0 <= i < |pages| - 1 ==> Linked(pages, i)
  }

  ghost predicate Linked(pages: seq<Page>, i: nat)
    requires i + 1 < |pages|
  {
    && pages[i + 1].cursor == Returned(pages[i].Next())
    && forall c :: c in pages[i].candidates && c !in Processed(pages[..i + 1]) ==> c in pages[i + 1].candidates
  }

  /** Where the last page ended. */
  function End(pages: seq<Page>): nat
    requires pages != []
  {
    Rank(pages[|pages| - 1].Next())
  }

  lemma ChainPrefix(pages: seq<Page>)
    requires Chain(pages) && |pages| > 1
    ensures Chain(pages[..|pages| - 1])
    ensures pages[|pages| - 1].Valid() && Linked(pages, |pages| - 2)
    ensures End(pages[..|pages| - 1]) <= Rank(pages[|pages| - 1].cursor)
  {
    var n := |pages| - 1;
    var front := pages[..n];
    forall i | 0 <= i < n - 1
      ensures Linked(front, i)
    {
      assert Linked(pages, i) && front[..i + 1] == pages[..i + 1];
    }
    assert Linked(pages, n - 1);
    ReturnedCursor(pages[n - 1].Next());
  }

  /** A page processes ascending hashes between its own cursor and the next one. */
  lemma PageAscends(p: Page)
    requires p.Valid()
    ensures Rank(p.cursor) <= Rank(p.Next())
    ensures Ascending(p.Done())
    ensures forall c :: c in p.Done() ==> Rank(p.cursor) < c <= Rank(p.Next())
  {
    if p.position > 0 {
      var listing := p.Listing();
      var last := listing[p.position - 1];
      assert last in listing && Rank(p.Next()) == last;
      forall c | c in p.Done()
        ensures Rank(p.cursor) < c <= last
      {
        var i :| 0 <= i < p.position && listing[i] == c;
        assert c in listing && c in p.Above();
      }
    }
  }

  /** No hash is processed twice, and the hashes come in ascending order. */
  lemma {:induction false} PagesAscend(pages: seq<Page>)
    requires Chain(pages)
    ensures Ascending(Processed(pages))
    ensures Rank(pages[0].cursor) <= Rank(pages[|pages| - 1].cursor) <= End(pages)
    ensures forall c :: c in Processed(pages) ==> Rank(pages[0].cursor) < c <= End(pages)
  {
    var n := |pages| - 1;
    var p := pages[n];
    PageAscends(p);
    if n == 0 {
      assert Processed(pages[..0]) == [];
      assert Processed(pages) == p.Done();
    } else {
      ChainPrefix(pages);
      PagesAscend(pages[..n]);
      Joined(Processed(pages[..n]), p.Done(), Rank(p.cursor));
    }
  }

  lemma Joined(a: seq<nat>, b: seq<nat>, limit: nat)
    requires Ascending(a) && Ascending(b) && (forall c :: c in a ==> c <= limit) && (forall c :: c in b ==> limit < c)
    ensures Ascending(a + b)
  {
    forall i, j | 0 <= i < j < |a + b|
      ensures (a + b)[i] < (a + b)[j]
    {
      if i < |a| <= j {
        assert a[i] in a && b[j - |a|] in b;
      }
    }
  }

  /** On one page, a candidate above the cursor is processed, or still lies above the next cursor. */
  lemma PageLeaves(p: Page, c: nat)
    requires p.Valid() && c in p.candidates && c > Rank(p.cursor)
    ensures c in p.Done() || (c > Rank(p.Next()) && !p.Complete())
  {
    if p.scanned {
      var listing := p.Listing();
      assert c in p.Above();
      if c in listing {
        var i :| 0 <= i < |listing| && listing[i] == c;
        if i < p.position {
          assert p.Done()[i] == c;
        } else if p.position > 0 {
          assert Rank(p.Next()) == listing[p.position - 1] < listing[i];
        }
      } else {
        assert PageSelection.Above(c, listing);
      }
    }
  }

  /** Some cursor of the chain passes over the candidate when it comes back. */
  ghost predicate Lost(pages: seq<Page>, c: nat) {
    exists i :: 0 <= i < |pages| - 1 && PassedOver(pages[i].Next(), c)
  }

  lemma LostBefore(pages: seq<Page>, c: nat)
    requires |pages| > 1
    ensures Lost(pages, c) <==> Lost(pages[..|pages| - 1], c) || PassedOver(pages[|pages| - 2].Next(), c)
  {
  }

  /** What the first page had to do is done, passed over, or still ahead of the next cursor and still a candidate. */
  lemma {:induction false} PagesLeave(pages: seq<Page>, c: nat)
    requires Chain(pages) && c in pages[0].candidates && c > Rank(pages[0].cursor)
    ensures c in Processed(pages) || Lost(pages, c) ||
            (c > End(pages) && c in pages[|pages| - 1].candidates && !pages[|pages| - 1].Complete())
  {
    var n := |pages| - 1;
    var p := pages[n];
    if n == 0 {
      PageLeaves(p, c);
    } else {
      ChainPrefix(pages);
      PagesLeave(pages[..n], c);
      LostBefore(pages, c);
      if c !in Processed(pages[..n]) && !Lost(pages, c) {
        PageLeaves(p, c);
      }
    }
  }

  /** A candidate that was passed over is behind all later cursors, and ahead of all earlier ones. */
  lemma {:induction false} LostIsNotProcessed(pages: seq<Page>, c: nat)
    requires Chain(pages) && Lost(pages, c)
    ensures c !in Processed(pages) && c <= Rank(pages[|pages| - 1].cursor)
  {
    var n := |pages| - 1;
    var front, p := pages[..n], pages[n];
    ChainPrefix(pages);
    LostBefore(pages, c);
    PagesAscend(front);
    if Lost(front, c) {
      LostIsNotProcessed(front, c);
    }
    assert c !in Processed(front) && c <= Rank(p.cursor);
    PageAscends(p);
    assert c !in p.Done();
  }

  /**
   Nothing else is skipped: of the candidates up to the next cursor, and of all candidates once a page says
   `complete`, exactly those have been processed that no returned cursor passed over.
   */
  lemma NothingElseSkipped(pages: seq<Page>, c: nat)
    requires Chain(pages) && c in pages[0].candidates && c > Rank(pages[0].cursor)
    requires c <= End(pages) || pages[|pages| - 1].Complete()
    ensures c in Processed(pages) <==> !Lost(pages, c)
  {
    PagesLeave(pages, c);
    if Lost(pages, c) {
      LostIsNotProcessed(pages, c);
    }
  }

  lemma FirstOfTwo(h: Bytes, c: Bytes) returns (p: Page)
    requires HexHash(h) && h != Zeros(HASH) && Rank(h) < Rank(c)
    ensures p.Valid() && p.Next() == h && p.Done() == [Rank(h)] && Rank(p.cursor) < Rank(h)
    ensures p.candidates == {Rank(h), Rank(c)}
  {
    ZeroHashIsNeverAbove(h);
    p := Page({Rank(h), Rank(c)}, Zeros(HASH), true, [h, c], false, 1);
    assert p.Above() == {Rank(h), Rank(c)};
    assert p.Listing() == [Rank(h), Rank(c)];
  }

  lemma TwoPages(first: Page, last: Page)
    requires first.Valid() && last.Valid() && last.cursor == Returned(first.Next())
    requires forall c :: c in first.candidates && c !in first.Done() ==> c in last.candidates
    ensures Chain([first, last])
  {
    var pages := [first, last];
    assert pages[..1] == [first] && [first][..0] == [];
    assert Processed([first]) == first.Done();
    assert Linked(pages, 0);
  }

  /** Candidates do get lost: a page that ends at such a cursor, and a complete one after it. */
  lemma PassedOverIsLost(h: Bytes, c: Bytes) returns (pages: seq<Page>)
    requires HexHash(h) && PassedOver(h, Rank(c))
    ensures Chain(pages) && pages[|pages| - 1].Complete()
    ensures Rank(c) in pages[0].candidates && Rank(c) > Rank(pages[0].cursor) && Rank(c) !in Processed(pages)
  {
    ReturnedCursor(h);
    var first := FirstOfTwo(h, c);
    var last := Page({Rank(c)}, Returned(h), true, [], false, 0);
    assert last.Above() == {};
    TwoPages(first, last);
    pages := [first, last];
    assert PassedOver(pages[0].Next(), Rank(c));
    LostIsNotProcessed(pages, Rank(c));
  }

  /** A client whose cursors hold no upper-case letter misses nothing. */
  lemma LowerCaseCursorsSkipNothing(pages: seq<Page>, c: nat)
    requires Chain(pages) && c in pages[0].candidates && c > Rank(pages[0].cursor)
    requires c <= End(pages) || pages[|pages| - 1].Complete()
    requires forall i :: 0 <= i < |pages| - 1 ==> !HoldsUpper(pages[i].Next())
    ensures c in Processed(pages)
  {
    NothingElseSkipped(pages, c);
    forall i | 0 <= i < |pages| - 1
      ensures !PassedOver(pages[i].Next(), c)
    {
      ReturnedCursor(pages[i].Next());
    }
  }

  /** A page whose scan finished and whose entries were all processed says `complete`, or has moved on by 32. */
  lemma FullPagesProgress(p: Page)
    requires p.Valid() && p.scanned && p.position == |p.hashes|
    ensures p.Complete() <==> |p.Above()| <= BATCH
    ensures !p.Complete() ==> p.position == BATCH && Rank(p.cursor) < Rank(p.Next())
  {
    MoreMeansOverflow(p.Listing(), p.more, p.Above());
    PageAscends(p);
    assert !p.Complete() ==> p.Listing()[p.position - 1] in p.Done();
  }
}
