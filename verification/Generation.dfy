/**
 The shared state of one namespace: serial, baseline, the two rule tries, the list of allocated
 nodes and the garbage list (ngx_cache_purge_invalidation.c). Every operation is proved against
 the invalidation log.
 */
module Generation {
  import opened Bytes
  import opened GenerationKey
  import opened InvalidationLog
  import opened GenerationRules
  import opened RuleTrie
  import opened Staleness

  /** Stepping from a word's node to the first of its children. */
  lemma StepDown(root: Rule?, s: Shape, cells: Cells, w: Bytes, j: nat)
    requires TrieOk(root, s, cells) && w in s.order && j < |s.order[w]|
    ensures var child := w + [s.order[w][j]];
      && child in s.at && child in s.order && Nth(s, w, j) == s.at[child] && s.at[child] in cells
      && cells[s.at[child]].child == Nth(s, child, 0)
      && child in s.stored && cells[s.at[child]].generation == s.stored[child]
  {
    NthCell(root, s, cells, w, j);
    WordCell(root, s, cells, w + [s.order[w][j]]);
  }

  lemma DescentEnds(root: Rule?, s: Shape, cells: Cells, word: Bytes, i: nat, n: nat)
    requires TrieOk(root, s, cells) && i < n <= |word| && word[..i] in s.order && word[i] !in s.order[word[..i]]
    ensures word[..n] !in s.stored
    ensures PrefixBest(s.stored, word, n) == PrefixBest(s.stored, word, i)
    decreases n
  {
    assert word[..i + 1] == word[..i] + [word[i]];
    UnlistedWord(root, s, cells, word[..i], word[i]);
    TrieClosed(root, s, cells);
    NoLongerWord(s, word, i + 1, n);
    assert Keyed(s, word[..n]);
    if i + 1 < n {
      DescentEnds(root, s, cells, word, i, n - 1);
    }
  }

  /** The best rule a pass has met after matching the first `n` bytes of `word`. */
  ghost function Met(g: map<Bytes, nat>, word: Bytes, isPrefix: bool, n: nat): nat
    requires n <= |word|
  {
    if isPrefix then PrefixBest(g, word, n) else if 0 < n == |word| then Stored(g, word) else 0
  }

  lemma MetStep(root: Rule?, s: Shape, cells: Cells, word: Bytes, isPrefix: bool, i: nat, c: Byte, j: nat)
    requires TrieOk(root, s, cells) && i < |word| && word[..i] in s.order && word[i] == c
    requires j < |s.order[word[..i]]| && s.order[word[..i]][j] == c
    ensures word[..i + 1] in s.order && Nth(s, word[..i], j) != null && Nth(s, word[..i], j) in cells
    ensures var node := cells[Nth(s, word[..i], j)];
      && node.child == Nth(s, word[..i + 1], 0)
      && Met(s.stored, word, isPrefix, i + 1) ==
           Max(Met(s.stored, word, isPrefix, i), if isPrefix || i + 1 == |word| then node.generation else 0)
  {
    StepDown(root, s, cells, word[..i], j);
    assert word[..i + 1] == word[..i] + [c];
    assert i + 1 == |word| ==> word[..i + 1] == word;
  }

  lemma MetAll(root: Rule?, s: Shape, cells: Cells, word: Bytes, isPrefix: bool, i: nat)
    requires TrieOk(root, s, cells) && i < |word| && word[..i] in s.order && word[i] !in s.order[word[..i]]
    ensures Met(s.stored, word, isPrefix, |word|) == Met(s.stored, word, isPrefix, i)
  {
    DescentEnds(root, s, cells, word, i, |word|);
    assert word[..|word|] == word;
  }

  /** The two passes together compute the maximum, which is what the log answers. */
  lemma BothPasses(rules: Rules, log: Log, key: Bytes)
    requires Represents(rules, log) && [] !in rules.exact
    ensures Max(Max(rules.baseline, Met(rules.exact, key, false, |key|)), Met(rules.prefix, Fold(key), true, |key|)) ==
         Live(log, key)
  {
    assert RuleMax(rules, key) == Live(log, key);
  }

  /** One pass of generation_lookup: over the exact trie, or over the prefix trie with folded bytes. */
  method Descend(first: Rule?, key: Bytes, isPrefix: bool, floor: nat, ghost s: Shape, ghost cells: Cells)
    returns (generation: nat)
    requires Mirrors(cells) && TrieOk(first, s, cells)
    ensures var word := if isPrefix then Fold(key) else key;
      generation == Max(floor, Met(s.stored, word, isPrefix, |word|))
  {
    generation := floor;
    var node := first;
    var i := 0;
    ghost var word := if isPrefix then Fold(key) else key;
    ghost var g := s.stored;
    while i < |key| && node != null
      invariant 0 <= i <= |key| && word[..i] in s.order
      invariant node == Nth(s, word[..i], 0)
      invariant generation == Max(floor, Met(g, word, isPrefix, i))
    {
      var c := if isPrefix then ToLower(key[i]) else key[i];
      assert c == word[i];
      ghost var j;
      TrieScan(first, s, cells, word[..i]);
      node, j := FindChild(node, c, s, cells, word[..i]);
      if node == null {
        MetAll(first, s, cells, word, isPrefix, i);
        return;
      }
      MetStep(first, s, cells, word, isPrefix, i, c, j);
      assert cells[node] == CellOf(node);
      if (isPrefix || i + 1 == |key|) && node.generation > generation {
        generation := node.generation;
      }
      node := node.child;
      i := i + 1;
    }
    if i < |key| {
      TrieScan(first, s, cells, word[..i]);
      MetAll(first, s, cells, word, isPrefix, i);
    }
  }

  // ---- node lists ----

  ghost function HeadOf(nodes: seq<Rule>): Rule? {
    if nodes == [] then null else nodes[0]
  }

  /** The i-th node links to the next one, the last node to null. */
  ghost predicate Linked(nodes: seq<Rule>, i: nat)
    requires i < |nodes|
    reads nodes`chained
  {
    nodes[i].chained == if i + 1 < |nodes| then nodes[i + 1] else null
  }

  /** `nodes` is the intrusive list starting at `head`. */
  ghost predicate Chained(nodes: seq<Rule>, head: Rule?)
    reads nodes`chained
  {
    && head == HeadOf(nodes)
    && forall i {:trigger Linked(nodes, i)} :: 0 <= i < |nodes| ==> Linked(nodes, i)
  }

  ghost predicate Apart(nodes: seq<Rule>, i: nat, j: nat)
    requires i < |nodes| && j < |nodes|
  {
    nodes[i] != nodes[j]
  }

  ghost predicate Distinct(nodes: seq<Rule>) {
    forall i, j {:trigger Apart(nodes, i, j)} :: 0 <= i < j < |nodes| ==> Apart(nodes, i, j)
  }

  ghost function SetOf(nodes: seq<Rule>): set<Rule> {
    set r | r in nodes
  }

  lemma ChainedTail(nodes: seq<Rule>, head: Rule?)
    requires Chained(nodes, head) && nodes != []
    ensures Chained(nodes[1..], nodes[0].chained)
  {
    assert Linked(nodes, 0);
    forall i | 0 <= i < |nodes| - 1
      ensures Linked(nodes[1..], i)
    {
      assert Linked(nodes, i + 1);
    }
  }

  lemma ChainedCons(n: Rule, nodes: seq<Rule>, head: Rule?)
    requires Chained(nodes, head) && n.chained == head
    ensures Chained([n] + nodes, n)
  {
    forall i | 0 <= i < |nodes| + 1
      ensures Linked([n] + nodes, i)
    {
      assert i > 0 ==> Linked(nodes, i - 1);
    }
  }

  /** Two lists become one when the first one's last node links to the second. */
  lemma ChainedAppend(a: seq<Rule>, b: seq<Rule>, head: Rule?)
    requires a != [] && head == a[0]
    requires forall i {:trigger Linked(a, i)} :: 0 <= i < |a| - 1 ==> Linked(a, i)
    requires Chained(b, a[|a| - 1].chained)
    ensures Chained(a + b, head)
  {
    forall i | 0 <= i < |a| + |b|
      ensures Linked(a + b, i)
    {
      assert i < |a| - 1 ==> Linked(a, i);
      assert i >= |a| ==> Linked(b, i - |a|);
    }
  }

  lemma DistinctCons(n: Rule, nodes: seq<Rule>)
    requires Distinct(nodes) && n !in nodes
    ensures Distinct([n] + nodes)
  {
    forall i, j | 0 <= i < j < |nodes| + 1
      ensures Apart([n] + nodes, i, j)
    {
      assert i > 0 ==> Apart(nodes, i - 1, j - 1);
    }
  }

  lemma DistinctWithout(a: seq<Rule>, b: seq<Rule>)
    requires Distinct(a + b) && b != []
    ensures Distinct(a + b[1..])
  {
    forall i, j | 0 <= i < j < |a| + |b| - 1
      ensures Apart(a + b[1..], i, j)
    {
      assert Apart(a + b, if i < |a| then i else i + 1, if j < |a| then j else j + 1);
    }
  }

  // ---- the two tries as one value ----

  datatype Tries = Tries(exact: Rule?, exactShape: Shape, prefix: Rule?, prefixShape: Shape) {
    function Root(isPrefix: bool): Rule? {
      if isPrefix then prefix else exact
    }

    ghost function ShapeOf(isPrefix: bool): Shape {
      if isPrefix then prefixShape else exactShape
    }

    ghost function RulesAbove(baseline: nat): Rules {
      Rules(baseline, exactShape.stored, prefixShape.stored)
    }

    /** Both tries are in order, and their nodes are exactly the allocated ones, each in one trie. */
    ghost predicate Ok(cells: Cells) {
      && TrieOk(exact, exactShape, cells) && TrieOk(prefix, prefixShape, cells)
      && Nodes(exactShape) !! Nodes(prefixShape)
      && Nodes(exactShape) + Nodes(prefixShape) == cells.Keys
    }

    ghost function Grow(isPrefix: bool, link: Link, w: Bytes, c: Byte, n: Rule): Tries
      requires w in ShapeOf(isPrefix).order
    {
      if isPrefix then Tries(exact, exactShape, RootAfter(prefix, link, n), Grown(prefixShape, w, c, n))
      else Tries(RootAfter(exact, link, n), Grown(exactShape, w, c, n), prefix, prefixShape)
    }

    ghost function Raise(isPrefix: bool, w: Bytes, g: nat): Tries {
      if isPrefix then this.(prefixShape := Rewritten(prefixShape, w, g))
      else this.(exactShape := Rewritten(exactShape, w, g))
    }
  }

  const NO_TRIES := Tries(null, EMPTY, null, EMPTY)

  lemma EmptyTries()
    ensures NO_TRIES.Ok(map[])
  {
    EmptyTrieOk(map[]);
  }

  /** One trie grew; the other one is as before. */
  lemma GrownPair(root: Rule?, s: Shape, other: Rule?, o: Shape, cells: Cells,
                  w: Bytes, c: Byte, n: Rule, link: Link)
    requires TrieOk(root, s, cells) && TrieOk(other, o, cells) && Nodes(s) !! Nodes(o)
    requires Fits(s, cells, w, c, link) && n !in cells
    ensures var s', cells' := Grown(s, w, c, n), CellsAfter(cells, link, n, c);
      && TrieOk(RootAfter(root, link, n), s', cells') && TrieOk(other, o, cells')
      && Nodes(s') !! Nodes(o) && Nodes(s') == Nodes(s) + {n}
  {
    FreshNode(root, s, cells, n);
    FreshNode(other, o, cells, n);
    GrownTrie(root, s, cells, w, c, n, link);
    GrownNodes(s, w, c, n);
    assert forall v :: v in o.at ==> WordOk(o, cells, v);
    GrownBeside(s, o, cells, w, c, n, link);
    SameTrie(other, o, cells, CellsAfter(cells, link, n, c));
  }

  lemma GrownTries(t: Tries, isPrefix: bool, cells: Cells, link: Link, w: Bytes, c: Byte, n: Rule)
    requires t.Ok(cells) && Fits(t.ShapeOf(isPrefix), cells, w, c, link) && n !in cells
    ensures t.Grow(isPrefix, link, w, c, n).Ok(CellsAfter(cells, link, n, c))
  {
    GrownPair(t.Root(isPrefix), t.ShapeOf(isPrefix), t.Root(!isPrefix), t.ShapeOf(!isPrefix), cells, w, c, n, link);
  }

  lemma RaisedTries(t: Tries, isPrefix: bool, cells: Cells, w: Bytes, g: nat)
    requires t.Ok(cells) && w in t.ShapeOf(isPrefix).at
    ensures var node := t.ShapeOf(isPrefix).at[w];
      node in cells && t.Raise(isPrefix, w, g).Ok(cells[node := cells[node].(generation := g)])
  {
    var s, o := t.ShapeOf(isPrefix), t.ShapeOf(!isPrefix);
    SetGeneration(t.Root(isPrefix), s, cells, w, g);
    assert forall v :: v in o.at ==> WordOk(o, cells, v);
    assert s.at[w] in Nodes(s);
    var cells' := cells[s.at[w] := cells[s.at[w]].(generation := g)];
    forall v | v in o.at
      ensures o.at[v] in cells && o.at[v] in cells' && cells'[o.at[v]] == cells[o.at[v]]
    {
      assert o.at[v] in Nodes(o);
    }
    SameTrie(t.Root(!isPrefix), o, cells, cells');
  }

  lemma TableKeys(t: Tries, isPrefix: bool, cells: Cells, v: Bytes)
    requires t.Ok(cells)
    ensures v in t.ShapeOf(isPrefix).stored <==> v in t.ShapeOf(isPrefix).at
  {
    assert Keyed(t.ShapeOf(isPrefix), v);
  }

  /** A trie without a root stores nothing. */
  lemma EmptyRoot(s: Shape, cells: Cells)
    requires TrieOk(null, s, cells)
    ensures s.stored == map[]
  {
    forall w | w in s.stored
      ensures false
    {
      EmptyRootWord(s, cells, w);
    }
  }

  lemma {:induction false} EmptyRootWord(s: Shape, cells: Cells, w: Bytes)
    requires TrieOk(null, s, cells)
    ensures w !in s.stored
    decreases |w|
  {
    assert Keyed(s, w);
    if w in s.at {
      assert WordOk(s, cells, w) && Keyed(s, w[..|w| - 1]);
      if |w| > 1 {
        EmptyRootWord(s, cells, w[..|w| - 1]);
      } else {
        assert w[..0] == [];
        NthCell(null, s, cells, [], 0);
      }
    }
  }

  method Splice(tail: Rule, ghost a: seq<Rule>, ghost b: seq<Rule>, ghost head: Rule?, next: Rule?)
    requires a != [] && tail == a[|a| - 1] && Distinct(a + b) && Chained(a, head) && Chained(b, next)
    modifies tail`chained
    ensures Chained(a + b, head)
  {
    tail.chained := next;
    forall i | 0 <= i < |a| - 1
      ensures Linked(a, i)
    {
      assert Apart(a + b, i, |a| - 1) && old(Linked(a, i));
    }
    forall i | 0 <= i < |b|
      ensures Linked(b, i)
    {
      assert Apart(a + b, |a| - 1, |a| + i) && old(Linked(b, i));
    }
    ChainedAppend(a, b, head);
  }

  // ---- the state ----

  datatype Result = Ok | Again | Declined | Error

  const LOGICAL_KEY_MAX: nat := 8096
  const RECLAIM_LIMIT: nat := 64

  // The clauses of the structural invariant, named so that a proof unfolds only those it uses.
  datatype Clause = ListsLinked | TriesSound | Recorded

  class GenerationState {
    const name: Bytes
    const epoch: Bytes
    var serial: nat
    var baseline: nat
    var exact: Rule?
    var prefix: Rule?
    var chain: Rule?    // `allocated` in the source
    var tail: Rule?
    var garbage: Rule?

    ghost var exactShape: Shape
    ghost var prefixShape: Shape
    ghost var cells: Cells         // what the allocated nodes hold
    ghost var live: seq<Rule>      // the allocated list
    ghost var detached: seq<Rule>  // the garbage list
    ghost var log: Log

    /** What the tries store, by word. */
    ghost function RulesNow(): Rules
      reads this`baseline, this`exact, this`prefix, this`exactShape, this`prefixShape
    {
      Both().RulesAbove(baseline)
    }

    ghost function Both(): Tries
      reads this`exact, this`prefix, this`exactShape, this`prefixShape
    {
      Tries(exact, exactShape, prefix, prefixShape)
    }

    /** The two lists are well linked, share no node, and `tail` ends the allocated one. */
    ghost predicate ChainsOk()
      reads this`live, this`detached, this`chain, this`garbage, this`tail, live`chained, detached`chained
    {
      && Distinct(live + detached)
      && Chained(live, chain) && Chained(detached, garbage)
      && tail == if live == [] then null else live[|live| - 1]
    }

    ghost predicate Holds(clause: Clause)
      reads this`live, this`detached, this`chain, this`garbage, this`tail, live, detached
      reads this`exact, this`prefix, this`exactShape, this`prefixShape, this`cells
    {
      match clause
      case ListsLinked => ChainsOk()
      case TriesSound => Both().Ok(cells)
      case Recorded => cells.Keys == SetOf(live) && Mirrors(cells)
    }

    /** The nodes reachable from the two tries are exactly the allocated list, and the lists are in order. */
    ghost predicate Structured()
      reads this`live, this`detached, this`chain, this`garbage, this`tail, live, detached
      reads this`exact, this`prefix, this`exactShape, this`prefixShape, this`cells
    {
      forall clause: Clause :: Holds(clause)
    }

    ghost predicate Valid()
      reads this, live, detached
    {
      && Structured()
      && ValidName(name) && ValidEpoch(epoch)
      && serial == Serial(log) <= UINT64_MAX
      && Bounded(RulesNow(), serial)
      && Represents(RulesNow(), log)
    }

    constructor (name: Bytes, epoch: Bytes)
      requires ValidName(name) && ValidEpoch(epoch)
      ensures Valid() && this.name == name && this.epoch == epoch && log == [] && live == [] && detached == []
    {
      this.name, this.epoch := name, epoch;
      serial, baseline := 1, 1;
      exact, prefix, chain, tail, garbage := null, null, null, null, null;
      exactShape, prefixShape, cells, live, detached := EMPTY, EMPTY, map[], [], [];
      log := [];
      new;
      EmptyTries();
      InitialRepresents();
    }

    /** ngx_http_cache_purge_generation_lookup: the fast form answers what the log says. */
    method Lookup(key: Bytes) returns (generation: nat)
      requires Valid()
      ensures generation == Live(log, key)
    {
      assert Holds(TriesSound) && Holds(Recorded);
      generation := Descend(exact, key, false, baseline, exactShape, cells);
      generation := Descend(prefix, key, true, generation, prefixShape, cells);
      assert Keyed(exactShape, []);
      BothPasses(RulesNow(), log, key);
    }

    /** The bounded reclaim loop: at most 64 detached nodes go back to the slab. */
    method Reclaim()
      requires ChainsOk()
      modifies this`garbage, this`detached
      ensures ChainsOk()
      ensures detached == old(detached)[if |old(detached)| < RECLAIM_LIMIT then |old(detached)| else RECLAIM_LIMIT..]
    {
      var n := 0;
      while n < RECLAIM_LIMIT && garbage != null
        invariant n <= RECLAIM_LIMIT && n <= |old(detached)| && detached == old(detached)[n..]
        invariant ChainsOk()
      {
        var node := garbage;
        ChainedTail(detached, garbage);
        DistinctWithout(live, detached);
        garbage := node.chained;
        detached := detached[1..];
        n := n + 1;
      }
    }

    /** The list half of a reset: splice the allocated list in front of the garbage, in constant time. */
    method Detach()
      requires ChainsOk()
      modifies this`garbage, this`chain, this`tail, this`live, this`detached
      modifies if tail == null then {} else {tail}
      ensures ChainsOk() && live == [] && detached == old(live) + old(detached)
    {
      ghost var all := live + detached;
      if chain != null {
        Splice(tail, live, detached, chain, garbage);
        garbage := chain;
        chain, tail := null, null;
      } else {
        assert all == detached;
      }
      live, detached := [], all;
      assert live + detached == all;
    }

    /** ngx_http_cache_purge_generation_reset. */
    method Reset()
      requires ChainsOk()
      modifies this`baseline, this`exact, this`prefix, this`garbage, this`chain, this`tail
      modifies this`exactShape, this`prefixShape, this`cells, this`live, this`detached
      modifies if tail == null then {} else {tail}
      ensures Structured() && RulesNow() == Rules(serial, map[], map[])
      ensures live == [] && detached == old(live) + old(detached)
    {
      baseline := serial;
      exact, prefix := null, null;
      exactShape, prefixShape, cells := EMPTY, EMPTY, map[];
      Detach();
      EmptyTries();
      assert Both() == NO_TRIES;
    }

    // ---- insertion ----

    /** `*link` in the source. */
    function Target(isPrefix: bool, link: Link): Rule?
      reads this, if link.Root? then {} else {link.node}
    {
      match link
      case Root => if isPrefix then prefix else exact
      case Child(node) => node.child
      case Sibling(node) => node.sibling
    }

    /** The scan for a byte below one word, keeping the link that was followed last. */
    method FindLink(isPrefix: bool, start: Link, c: Byte, ghost w: Bytes)
      returns (link: Link, ghost j: nat)
      requires Mirrors(cells) && w in Both().ShapeOf(isPrefix).order && ScanOk(Both().ShapeOf(isPrefix), cells, w)
      requires Target(isPrefix, start) == Nth(Both().ShapeOf(isPrefix), w, 0)
      ensures j <= |Both().ShapeOf(isPrefix).order[w]| && Target(isPrefix, link) == Nth(Both().ShapeOf(isPrefix), w, j)
      ensures j < |Both().ShapeOf(isPrefix).order[w]| ==> Both().ShapeOf(isPrefix).order[w][j] == c
      ensures j == |Both().ShapeOf(isPrefix).order[w]| ==> c !in Both().ShapeOf(isPrefix).order[w]
      ensures link == if j == 0 then start else Sibling(Nth(Both().ShapeOf(isPrefix), w, j - 1))
    {
      link, j := start, 0;
      ghost var s := Both().ShapeOf(isPrefix);
      while Target(isPrefix, link) != null && Target(isPrefix, link).byte != c
        invariant j <= |s.order[w]| && Target(isPrefix, link) == Nth(s, w, j)
        invariant forall k :: 0 <= k < j ==> s.order[w][k] != c
        invariant link == if j == 0 then start else Sibling(Nth(s, w, j - 1))
        decreases |s.order[w]| - j
      {
        assert cells[Target(isPrefix, link)] == CellOf(Target(isPrefix, link));
        link := Sibling(Target(isPrefix, link));
        j := j + 1;
      }
      assert j < |s.order[w]| ==> cells[Target(isPrefix, link)] == CellOf(Target(isPrefix, link));
    }

    /** Allocate a zeroed node for byte `c` and put it at the head of the allocated list. */
    method Allocate(c: Byte) returns (node: Rule)
      requires ChainsOk()
      modifies this`chain, this`tail, this`live
      ensures fresh(node) && CellOf(node) == Cell(c, null, null, 0)
      ensures live == [node] + old(live) && SetOf(live) == SetOf(old(live)) + {node} && ChainsOk()
    {
      node := new Rule();
      node.byte := c;
      node.chained := chain;
      ChainedCons(node, live, chain);
      DistinctCons(node, live + detached);
      chain := node;
      if tail == null {
        tail := node;
      }
      assert [node] + live + detached == [node] + (live + detached);
      live := [node] + live;
    }

    /** Store the new node in the link. */
    method WriteLink(isPrefix: bool, link: Link, node: Rule, ghost c: Byte)
      requires Mirrors(cells) && node !in cells && CellOf(node) == Cell(c, null, null, 0)
      requires link.Root? || link.node in cells
      modifies this`exact, this`prefix, this`cells, cells.Keys`child, cells.Keys`sibling
      ensures cells == CellsAfter(old(cells), link, node, c) && Mirrors(cells)
      ensures prefix == if isPrefix then RootAfter(old(prefix), link, node) else old(prefix)
      ensures exact == if isPrefix then old(exact) else RootAfter(old(exact), link, node)
    {
      match link
      case Root =>
        if isPrefix {
          prefix := node;
        } else {
          exact := node;
        }
        cells := CellsAfter(cells, link, node, c);
      case Child(p) =>
        assert cells[p] == CellOf(p);
        p.child := node;
        assert forall r :: r in cells && r != p ==> old(CellOf(r)) == CellOf(r);
        cells := CellsAfter(cells, link, node, c);
      case Sibling(p) =>
        assert cells[p] == CellOf(p);
        p.sibling := node;
        assert forall r :: r in cells && r != p ==> old(CellOf(r)) == CellOf(r);
        cells := CellsAfter(cells, link, node, c);
    }

    /** The new node joins its trie. */
    method Hook(isPrefix: bool, link: Link, node: Rule, c: Byte, ghost w: Bytes)
      requires Mirrors(cells) && node !in cells && CellOf(node) == Cell(c, null, null, 0)
      requires (link.Root? || link.node in cells) && w in Both().ShapeOf(isPrefix).order
      modifies this`exact, this`prefix, this`exactShape, this`prefixShape, this`cells
      modifies cells.Keys`child, cells.Keys`sibling
      ensures cells == CellsAfter(old(cells), link, node, c) && Mirrors(cells)
      ensures Both() == old(Both()).Grow(isPrefix, link, w, c, node)
    {
      GrowShape(isPrefix, w, c, node);
      WriteLink(isPrefix, link, node, c);
    }

    /** Allocate a node and store it in a link: the part of an insertion that touches real nodes. */
    method Attach(isPrefix: bool, link: Link, c: Byte, ghost w: Bytes) returns (node: Rule)
      requires ChainsOk() && cells.Keys == SetOf(live) && Mirrors(cells)
      requires (link.Root? || link.node in cells) && w in Both().ShapeOf(isPrefix).order
      modifies this`exact, this`prefix, this`chain, this`tail, this`exactShape, this`prefixShape, this`cells, this`live
      modifies cells.Keys`child, cells.Keys`sibling
      ensures fresh(node) && node !in old(cells) && live == [node] + old(live)
      ensures ChainsOk() && cells.Keys == SetOf(live) && Mirrors(cells)
      ensures cells == CellsAfter(old(cells), link, node, c)
      ensures Both() == old(Both()).Grow(isPrefix, link, w, c, node)
    {
      node := Allocate(c);
      Hook(isPrefix, link, node, c, w);
    }

    ghost method GrowShape(isPrefix: bool, w: Bytes, c: Byte, node: Rule)
      requires w in Both().ShapeOf(isPrefix).order
      modifies this`exactShape, this`prefixShape
      ensures exactShape == if isPrefix then old(exactShape) else Grown(old(exactShape), w, c, node)
      ensures prefixShape == if isPrefix then Grown(old(prefixShape), w, c, node) else old(prefixShape)
    {
      if isPrefix {
        prefixShape := Grown(prefixShape, w, c, node);
      } else {
        exactShape := Grown(exactShape, w, c, node);
      }
    }

    /** Store a new node for byte `c` behind the last child of `w`. */
    method Append(isPrefix: bool, link: Link, c: Byte, ghost w: Bytes) returns (node: Rule)
      requires Structured() && Fits(Both().ShapeOf(isPrefix), cells, w, c, link)
      modifies this`exact, this`prefix, this`chain, this`tail, this`exactShape, this`prefixShape, this`cells, this`live
      modifies SetOf(live)
      ensures fresh(node) && node !in old(cells) && live == [node] + old(live) && Structured()
      ensures cells == CellsAfter(old(cells), link, node, c)
      ensures Both() == old(Both()).Grow(isPrefix, link, w, c, node)
      ensures RulesNow() == old(RulesNow()).With(isPrefix, old(RulesNow()).Table(isPrefix)[w + [c] := 0])
    {
      ghost var before, tries := cells, Both();
      assert Holds(ListsLinked) && Holds(TriesSound) && Holds(Recorded);
      node := Attach(isPrefix, link, c, w);
      GrownTries(tries, isPrefix, before, link, w, c, node);
    }

    /** The link a scan below `w` starts from. */
    ghost function StartLink(isPrefix: bool, w: Bytes): Link
      reads this`exact, this`prefix, this`exactShape, this`prefixShape
    {
      var s := Both().ShapeOf(isPrefix);
      if w in s.at then Child(s.at[w]) else Root
    }

    lemma StartTarget(isPrefix: bool, w: Bytes)
      requires Structured() && w in Both().ShapeOf(isPrefix).order
      ensures Target(isPrefix, StartLink(isPrefix, w)) == Nth(Both().ShapeOf(isPrefix), w, 0)
      ensures ScanOk(Both().ShapeOf(isPrefix), cells, w)
      ensures |w| == 0 <==> w !in Both().ShapeOf(isPrefix).at
    {
      assert Holds(TriesSound) && Holds(Recorded);
      var t := Both();
      var root, s := t.Root(isPrefix), t.ShapeOf(isPrefix);
      TrieScan(root, s, cells, w);
      assert Keyed(s, w);
      if w in s.at {
        WordCell(root, s, cells, w);
        assert cells[s.at[w]] == CellOf(s.at[w]);
      }
    }

    /** A new node for byte `c`, which no child of `w` holds, behind the last of them. */
    method AppendLast(isPrefix: bool, link: Link, c: Byte, ghost w: Bytes) returns (node: Rule)
      requires Structured() && w in Both().ShapeOf(isPrefix).order && c !in Both().ShapeOf(isPrefix).order[w]
      requires var s := Both().ShapeOf(isPrefix);
        LinkTo.requires(s, w, |s.order[w]|) && link == LinkTo(s, w, |s.order[w]|)
      modifies this`exact, this`prefix, this`chain, this`tail, this`exactShape, this`prefixShape, this`cells, this`live
      modifies SetOf(live)
      ensures fresh(node) && live == [node] + old(live) && Structured()
      ensures w + [c] !in old(Both()).ShapeOf(isPrefix).at
      ensures RulesNow() == old(RulesNow()).With(isPrefix, old(RulesNow()).Table(isPrefix)[w + [c] := 0])
      ensures w + [c] in Both().ShapeOf(isPrefix).at && w + [c] in Both().ShapeOf(isPrefix).order
      ensures node == Both().ShapeOf(isPrefix).at[w + [c]]
    {
      ghost var root, s := Both().Root(isPrefix), Both().ShapeOf(isPrefix);
      assert Holds(TriesSound) && Holds(Recorded);
      LinkFits(root, s, cells, w, c);
      UnlistedWord(root, s, cells, w, c);
      node := Append(isPrefix, link, c, w);
    }

    /** The sibling loop of an insertion: the node of the next byte, or the link behind the last child. */
    method Seek(isPrefix: bool, start: Link, c: Byte, ghost w: Bytes) returns (link: Link, node: Rule?)
      requires Structured() && w in Both().ShapeOf(isPrefix).order && start == StartLink(isPrefix, w)
      ensures var s := Both().ShapeOf(isPrefix);
        if node != null then w + [c] in s.at && w + [c] in s.order && node == s.at[w + [c]]
        else
          && w + [c] !in s.at && c !in s.order[w]
          && LinkTo.requires(s, w, |s.order[w]|) && link == LinkTo(s, w, |s.order[w]|)
    {
      ghost var root, s := Both().Root(isPrefix), Both().ShapeOf(isPrefix);
      StartTarget(isPrefix, w);
      assert Holds(TriesSound) && Holds(Recorded);
      ghost var j;
      link, j := FindLink(isPrefix, start, c, w);
      node := Target(isPrefix, link);
      if node != null {
        StepDown(root, s, cells, w, j);
      } else {
        LinkFits(root, s, cells, w, c);
        UnlistedWord(root, s, cells, w, c);
      }
    }

    /** One turn of the insertion loop: find the node for the next byte, or add it. */
    method Visit(isPrefix: bool, start: Link, c: Byte, mayAllocate: bool, ghost w: Bytes)
      returns (node: Rule?, added: bool)
      requires Structured() && w in Both().ShapeOf(isPrefix).order && start == StartLink(isPrefix, w)
      modifies this`exact, this`prefix, this`chain, this`tail, this`exactShape, this`prefixShape, this`cells, this`live
      modifies SetOf(live)
      ensures Structured()
      ensures node == null <==> w + [c] !in old(Both()).ShapeOf(isPrefix).at && !mayAllocate
      ensures added <==> w + [c] !in old(Both()).ShapeOf(isPrefix).at && mayAllocate
      ensures !added ==>
                Both() == old(Both()) && cells == old(cells) && live == old(live)
      ensures added ==>
                && node != null && live == [node] + old(live) && fresh(node)
                && RulesNow() == old(RulesNow()).With(isPrefix, old(RulesNow()).Table(isPrefix)[w + [c] := 0])
      ensures node != null ==>
                && w + [c] in Both().ShapeOf(isPrefix).at && w + [c] in Both().ShapeOf(isPrefix).order
                && node == Both().ShapeOf(isPrefix).at[w + [c]]
    {
      var link;
      link, node := Seek(isPrefix, start, c, w);
      added := node == null && mayAllocate;
      if added {
        node := AppendLast(isPrefix, link, c, w);
      }
    }

    /** `link` is where the scan below `w` starts. */
    ghost predicate Placed(isPrefix: bool, w: Bytes, link: Link)
      reads this`exact, this`prefix, this`exactShape, this`prefixShape
    {
      w in Both().ShapeOf(isPrefix).order && link == StartLink(isPrefix, w)
    }

    ghost predicate Ends(isPrefix: bool, w: Bytes, node: Rule)
      reads this`exact, this`prefix, this`exactShape, this`prefixShape
    {
      w in Both().ShapeOf(isPrefix).at && node == Both().ShapeOf(isPrefix).at[w]
    }

    /** The same turn in terms of the rules the tries store. */
    method Extend(isPrefix: bool, start: Link, word: Bytes, i: nat, mayAllocate: bool)
      returns (node: Rule?, added: bool)
      requires Structured() && i < |word| && Placed(isPrefix, word[..i], start)
      modifies this`exact, this`prefix, this`chain, this`tail, this`exactShape, this`prefixShape, this`cells, this`live
      modifies SetOf(live)
      ensures Structured()
      ensures var g := old(RulesNow()).Table(isPrefix);
        && (added <==> word[..i + 1] !in g && mayAllocate)
        && (node == null <==> word[..i + 1] !in g && !mayAllocate)
        && (node != null ==> RulesNow() == old(RulesNow()).With(isPrefix, Pad(g, word[..i + 1])))
      ensures |live| == |old(live)| + if added then 1 else 0
      ensures Kept(old(SetOf(live))) && forall r :: r in SetOf(live) ==> r in old(SetOf(live)) || fresh(r)
      ensures node != null ==> Placed(isPrefix, word[..i + 1], Child(node))
    {
      ghost var w := word[..i];
      assert word[..i + 1] == w + [word[i]];
      assert Holds(TriesSound);
      TableKeys(Both(), isPrefix, cells, word[..i + 1]);
      node, added := Visit(isPrefix, start, word[i], mayAllocate, w);
      assert SetOf(live) == SetOf(old(live)) + if added then {node} else {};
    }

    /** None of these nodes has left the allocated list. */
    ghost predicate Kept(nodes: set<Rule>)
      reads this`live
    {
      nodes <= SetOf(live)
    }

    /** The insertion loop: it stops at the end of the word or at the first failed allocation. */
    method InsertWord(isPrefix: bool, word: Bytes, budget: nat, ghost g: map<Bytes, nat>) returns (node: Rule?)
      requires Structured() && |word| > 0 && g == RulesNow().Table(isPrefix)
      modifies this`exact, this`prefix, this`chain, this`tail, this`exactShape, this`prefixShape, this`cells, this`live
      modifies SetOf(live)
      ensures Structured()
      ensures node == null ==> budget < Missing(g, word, |word|)
      ensures node != null ==> Placed(isPrefix, word, Child(node)) && Missing(g, word, |word|) <= budget
      ensures node != null ==> RulesNow() == old(RulesNow()).With(isPrefix, PadAll(g, word, |word|))
      ensures node != null ==> |live| == |old(live)| + Missing(g, word, |word|)
      ensures Kept(old(SetOf(live))) && forall r :: r in SetOf(live) ==> r in old(SetOf(live)) || fresh(r)
    {
      ghost var before := RulesNow();
      var i, used, link, added := 0, 0, Root, false;
      node := null;
      RootPlaced(isPrefix);
      while i < |word|
        invariant 0 <= i <= |word| && Structured()
        invariant Placed(isPrefix, word[..i], link)
        invariant i > 0 ==> node != null && link == Child(node)
        invariant used == Missing(g, word, i) <= budget
        invariant RulesNow() == before.With(isPrefix, PadAll(g, word, i))
        invariant |live| == |old(live)| + used
        invariant Kept(old(SetOf(live))) && forall r :: r in SetOf(live) ==> r in old(SetOf(live)) || fresh(r)
      {
        PadStep(before, isPrefix, word, i);
        MissingMonotone(g, word, i + 1, |word|);
        node, added := Extend(isPrefix, link, word, i, used < budget);
        assert node == null ==> !added;
        if node == null {
          return;
        }
        link, i, used := Child(node), i + 1, if added then used + 1 else used;
      }
      assert word[..|word|] == word;
    }

    /** Find or add the node for `word`; `budget` allocations succeed before the slab runs out. Null when it did. */
    method Store(isPrefix: bool, word: Bytes, budget: nat) returns (node: Rule?)
      requires Structured() && |word| > 0
      modifies this`exact, this`prefix, this`chain, this`tail, this`exactShape, this`prefixShape, this`cells, this`live
      modifies SetOf(live)
      ensures Structured()
      ensures var g := old(RulesNow()).Table(isPrefix);
        && (node == null <==> budget < Missing(g, word, |word|))
        && (node != null ==>
              && RulesNow() == old(RulesNow()).With(isPrefix, PadAll(g, word, |word|))
              && Ends(isPrefix, word, node)
              && |live| == |old(live)| + Missing(g, word, |word|))
      ensures Kept(old(SetOf(live))) && forall r :: r in SetOf(live) ==> r in old(SetOf(live)) || fresh(r)
    {
      node := InsertWord(isPrefix, word, budget, RulesNow().Table(isPrefix));
      if node != null {
        PlacedEnds(isPrefix, word, Child(node));
      }
    }

    lemma PlacedEnds(isPrefix: bool, w: Bytes, link: Link)
      requires Structured() && Placed(isPrefix, w, link) && |w| > 0
      ensures link.Child? && Ends(isPrefix, w, link.node)
    {
      assert Holds(TriesSound);
      assert Keyed(Both().ShapeOf(isPrefix), w);
    }

    lemma RootPlaced(isPrefix: bool)
      requires Structured()
      ensures Placed(isPrefix, [], Root)
    {
      assert Holds(TriesSound);
    }

    // ---- invalidation ----

    /** `node->generation = state->serial` on the node of a stored word. */
    method Raise(isPrefix: bool, node: Rule, ghost word: Bytes)
      requires Structured() && Ends(isPrefix, word, node)
      modifies this`exactShape, this`prefixShape, this`cells, node`generation
      ensures Structured()
      ensures RulesNow() == old(RulesNow()).With(isPrefix, old(RulesNow()).Table(isPrefix)[word := serial])
    {
      assert Holds(ListsLinked) && Holds(TriesSound) && Holds(Recorded);
      RaisedTries(Both(), isPrefix, cells, word, serial);
      Stamp(isPrefix, node, word);
      assert ChainsOk();
      assert Both().Ok(cells);
    }

    /** The new generation in the node and in the shape of its trie. */
    method Stamp(isPrefix: bool, node: Rule, ghost word: Bytes)
      requires Mirrors(cells) && node in cells && word in Both().ShapeOf(isPrefix).at
      modifies this`exactShape, this`prefixShape, this`cells, node`generation
      ensures Both() == old(Both()).Raise(isPrefix, word, serial)
      ensures cells == old(cells)[node := old(cells)[node].(generation := serial)] && Mirrors(cells)
    {
      ghost var t := Both().Raise(isPrefix, word, serial);
      exactShape, prefixShape := t.exactShape, t.prefixShape;
      WriteGeneration(node);
    }

    method WriteGeneration(node: Rule)
      requires Mirrors(cells) && node in cells
      modifies this`cells, node`generation
      ensures cells == old(cells)[node := old(cells)[node].(generation := serial)] && Mirrors(cells)
    {
      assert cells[node] == CellOf(node);
      node.generation := serial;
      assert forall r :: r in cells && r != node ==> old(CellOf(r)) == CellOf(r);
      cells := cells[node := cells[node].(generation := serial)];
    }

    /** The comparison a conditional invalidation makes before it may go ahead. */
    method Matches(expected: Bytes, key: Bytes) returns (ok: bool)
      requires Valid()
      ensures ok <==> Decode(name, expected) == Key(Parts(epoch, Live(log, key), key))
    {
      var decoded := DecodeKey(name, expected);
      if decoded == NotOurs {
        return false;
      }
      var current := Lookup(key);
      return decoded.parts.logical == key && decoded.parts.epoch == epoch && decoded.parts.generation == current;
    }

    /** The selector an accepted invalidation is logged as, given how many allocations can succeed. */
    ghost function Outcome(key: Bytes, all: bool, conditional: bool, budget: nat): Selector
      reads this`baseline, this`exact, this`prefix, this`exactShape, this`prefixShape
    {
      Effective(RulesNow(), Requested(key, all, conditional), budget)
    }

    /** What is left of the garbage after one reclaim. */
    ghost function Unreclaimed(): seq<Rule>
      reads this`detached
    {
      detached[if |detached| < RECLAIM_LIMIT then |detached| else RECLAIM_LIMIT..]
    }

    /** Reclaim garbage and take the next serial. */
    method Advance()
      requires Structured()
      modifies this`garbage, this`detached, this`serial
      ensures Structured() && serial == old(serial) + 1 && detached == old(Unreclaimed())
    {
      assert Holds(ListsLinked) && Holds(TriesSound) && Holds(Recorded);
      Reclaim();
      serial := serial + 1;
    }

    lemma EndsLive(isPrefix: bool, w: Bytes, node: Rule)
      requires Structured() && Ends(isPrefix, w, node)
      ensures node in SetOf(live)
    {
      assert Holds(TriesSound) && Holds(Recorded);
      assert WordOk(Both().ShapeOf(isPrefix), cells, w);
    }

    lemma TailLive()
      requires Structured()
      ensures ChainsOk() && (tail != null ==> tail in SetOf(live))
    {
      assert Holds(ListsLinked);
    }

    /** Store a rule for `word` with the current serial, or reset the namespace when memory runs out. */
    method Record(isPrefix: bool, word: Bytes, budget: nat)
      requires Structured() && |word| > 0
      modifies this`baseline, this`exact, this`prefix, this`garbage, this`chain, this`tail
      modifies this`exactShape, this`prefixShape, this`cells, this`live, this`detached
      modifies SetOf(live)
      ensures Structured()
      ensures var before, g := old(RulesNow()), old(RulesNow()).Table(isPrefix);
        if budget < Missing(g, word, |word|) then
          && RulesNow() == Rules(serial, map[], map[])
          && live == [] && old(SetOf(live) + SetOf(detached)) <= SetOf(detached)
        else
          && RulesNow() == before.With(isPrefix, PadAll(g, word, |word|)[word := serial])
          && detached == old(detached) && old(SetOf(live)) <= SetOf(live)
          && |live| == |old(live)| + Missing(g, word, |word|)
    {
      var node := Store(isPrefix, word, budget);
      if node == null {
        TailLive();
        Reset();
      } else {
        EndsLive(isPrefix, word, node);
        Raise(isPrefix, node, word);
      }
    }

    /** What an accepted invalidation does with the nodes: nothing reachable is freed, and nothing leaks. */
    ghost predicate Settled(wasLive: set<Rule>, wasCount: nat, kept: seq<Rule>, before: Rules, outcome: Selector)
      reads this`live, this`detached
    {
      match outcome
      case Everything => live == [] && wasLive + SetOf(kept) <= SetOf(detached)
      case Exact(w) => detached == kept && wasLive <= SetOf(live) && |live| == wasCount + Missing(before.exact, w, |w|)
      case Prefix(w) =>
        detached == kept && wasLive <= SetOf(live) && |live| == wasCount + Missing(before.prefix, w, |w|)
    }

    /** The rule is stored, or the namespace is reset, and the nodes are settled accordingly. */
    method Apply(isPrefix: bool, word: Bytes, budget: nat)
      requires Structured() && |word| > 0
      modifies this`baseline, this`exact, this`prefix, this`garbage, this`chain, this`tail
      modifies this`exactShape, this`prefixShape, this`cells, this`live, this`detached
      modifies SetOf(live)
      ensures Structured()
      ensures var sel := if isPrefix then Prefix(word) else Exact(word);
        && Applied(old(RulesNow()), RulesNow(), Effective(old(RulesNow()), sel, budget), serial)
        && Settled(old(SetOf(live)), old(|live|), old(detached), old(RulesNow()),
                   Effective(old(RulesNow()), sel, budget))
    {
      RecordApplies(RulesNow(), isPrefix, word, serial);
      Record(isPrefix, word, budget);
    }

    /** Reclaim, take the next serial, and change the tries as the selector asks. */
    method Change(key: Bytes, all: bool, conditional: bool, budget: nat)
      requires Structured()
      modifies this`serial, this`baseline, this`exact, this`prefix, this`garbage, this`chain, this`tail
      modifies this`exactShape, this`prefixShape, this`cells, this`live, this`detached
      modifies SetOf(live)
      ensures Structured() && serial == old(serial) + 1
      ensures Applied(old(RulesNow()), RulesNow(), old(Outcome(key, all, conditional, budget)), serial)
      ensures Settled(old(SetOf(live)), old(|live|), old(Unreclaimed()), old(RulesNow()),
                      old(Outcome(key, all, conditional, budget)))
    {
      Advance();
      var isPrefix := !conditional && |key| != 0 && key[|key| - 1] == '*';
      var word := if isPrefix then key[..|key| - 1] else key;
      if all || |word| == 0 {
        TailLive();
        Reset();
      } else {
        var stem := if isPrefix then Fold(word) else word;
        Apply(isPrefix, stem, budget);
      }
    }

    /** generation_invalidate after its checks: the tries move exactly as the log does. */
    method Publish(key: Bytes, all: bool, conditional: bool, budget: nat)
      requires Valid() && serial < UINT64_MAX
      modifies this, SetOf(live)
      ensures Valid() && log == old(log) + [old(Outcome(key, all, conditional, budget))]
      ensures Settled(old(SetOf(live)), old(|live|), old(Unreclaimed()), old(RulesNow()),
                      old(Outcome(key, all, conditional, budget)))
    {
      ghost var before, outcome := RulesNow(), Outcome(key, all, conditional, budget);
      Change(key, all, conditional, budget);
      AppliedRepresents(before, RulesNow(), outcome, log);
      AppliedBounded(before, RulesNow(), outcome, Serial(log));
      log := log + [outcome];
    }

    /** The result of generation_invalidate, decided before anything changes. */
    ghost function Answer(key: Bytes, expected: Option<Bytes>, acquired: bool): Result
      reads this`serial, this`log
    {
      if |key| > LOGICAL_KEY_MAX then Error
      else if !acquired then Again
      else if expected.Some? && Decode(name, expected.value) != Key(Parts(epoch, Live(log, key), key)) then Declined
      else if serial == UINT64_MAX then Error
      else Ok
    }

    /** What an accepted invalidation does, in terms of the request. */
    lemma RequestEffects(key: Bytes, all: bool, conditional: bool, budget: nat)
      requires Valid()
      ensures |key| <= budget ==> Outcome(key, all, conditional, budget) == Requested(key, all, conditional)
      ensures all ==> forall k: Bytes :: Live(log + [Outcome(key, all, conditional, budget)], k) == serial + 1
    {
      if |key| <= budget {
        EnoughMemory(RulesNow(), Requested(key, all, conditional), budget);
      }
      if all {
        forall k: Bytes
          ensures Live(log + [Outcome(key, all, conditional, budget)], k) == serial + 1
        {
          PurgeAllCoversAll(key, conditional, k);
          EffectiveCovers(RulesNow(), Requested(key, all, conditional), budget, k);
          LiveAfter(log, Outcome(key, all, conditional, budget), k);
        }
      }
    }

    /**
     ngx_http_cache_purge_generation_invalidate. `acquired` says whether the trylock succeeds and
     `budget` how many allocations do.
     */
    method Invalidate(key: Bytes, all: bool, expected: Option<Bytes>, acquired: bool, budget: nat) returns (rc: Result)
      requires Valid()
      modifies this, SetOf(live)
      ensures Valid() && rc == old(Answer(key, expected, acquired))
      ensures rc != Ok ==> unchanged(this) && unchanged(old(SetOf(live)))
      ensures rc == Ok ==>
                && log == old(log) + [old(Outcome(key, all, expected.Some?, budget))]
                && Settled(old(SetOf(live)), old(|live|), old(Unreclaimed()), old(RulesNow()),
                           old(Outcome(key, all, expected.Some?, budget)))
      ensures rc == Ok && all ==> forall k: Bytes :: Live(log, k) == serial
      ensures rc == Ok && |key| <= budget ==> log == old(log) + [Requested(key, all, expected.Some?)]
    {
      RequestEffects(key, all, expected.Some?, budget);
      if |key| > LOGICAL_KEY_MAX {
        return Error;
      }
      if !acquired {
        return Again;
      }
      if expected.Some? {
        var matches := Matches(expected.value, key);
        if !matches {
          return Declined;
        }
      }
      if serial == UINT64_MAX {
        return Error;
      }
      Publish(key, all, expected.Some?, budget);
      return Ok;
    }

    /** Invalidating a selector that is already stored succeeds without a single allocation. */
    lemma RepeatAllocatesNothing(isPrefix: bool, word: Bytes, budget: nat)
      requires Structured() && word in RulesNow().Table(isPrefix)
      ensures Missing(RulesNow().Table(isPrefix), word, |word|) == 0
      ensures var sel := if isPrefix then Prefix(word) else Exact(word); Effective(RulesNow(), sel, budget) == sel
    {
      var s, g := Both().ShapeOf(isPrefix), RulesNow().Table(isPrefix);
      assert Holds(TriesSound);
      TrieClosed(Both().Root(isPrefix), s, cells);
      forall v | v in g && |v| > 1
        ensures v[..|v| - 1] in g
      {
        assert Keyed(s, v) && Keyed(s, v[..|v| - 1]);
      }
      assert word[..|word|] == word;
      StoredNeedsNothing(g, word, |word|);
    }

    // ---- readers ----

    /** ngx_http_cache_purge_generation_stale. */
    method Stale(key: Bytes) returns (stale: bool)
      requires Valid()
      ensures stale <==> IsStale(name, epoch, log, key)
    {
      var decoded := DecodeKey(name, key);
      if decoded == NotOurs {
        return false;
      }
      var current := Lookup(decoded.parts.logical);
      return decoded.parts.epoch != epoch || decoded.parts.generation < current;
    }

    /** ngx_http_cache_purge_generation_current. */
    method Current(key: Bytes) returns (matches: bool, logical: Bytes)
      requires Valid()
      ensures matches <==> IsCurrent(name, epoch, log, key)
      ensures matches ==> Decode(name, key) == Key(Parts(epoch, Live(log, logical), logical))
    {
      var decoded := DecodeKey(name, key);
      if decoded == NotOurs {
        return false, [];
      }
      logical := decoded.parts.logical;
      var current := Lookup(logical);
      matches := decoded.parts.epoch == epoch && decoded.parts.generation == current;
    }

    /** ngx_http_cache_purge_generation_view. */
    method TakeView() returns (view: View)
      requires Valid()
      ensures Describes(view, epoch, log) && view.baseline == baseline
    {
      view := View(epoch, serial, baseline, exact != null || prefix != null);
      ViewDescribes();
    }

    lemma ViewDescribes()
      requires Valid()
      ensures Describes(View(epoch, serial, baseline, exact != null || prefix != null), epoch, log)
    {
      assert Holds(TriesSound);
      if exact == null && prefix == null {
        EmptyRoot(exactShape, cells);
        EmptyRoot(prefixShape, cells);
      }
      forall key: Bytes
        ensures baseline <= Live(log, key)
        ensures exact == null && prefix == null ==> Live(log, key) == baseline
      {
        assert RuleMax(RulesNow(), key) == Live(log, key);
        NoPrefixes(Fold(key), |key|);
      }
    }
  }
}
