/**
 The byte tries of ngx_cache_purge_invalidation.c: a node holds one byte, its first child and its
 next sibling. A `Shape` names what a trie stores (which node ends which word, and the sibling
 order below each word); `TrieOk` ties a shape to the links in a record of the nodes' contents
 (`Cells`), so that everything but the scans over real nodes is about values.
 */
module RuleTrie {
  import opened Bytes

  class Rule {
    var child: Rule?
    var sibling: Rule?
    var chained: Rule?  // the intrusive `allocated` list, and after a reset the garbage list
    var generation: nat
    var byte: Byte

    /** ngx_slab_calloc_locked: a zeroed node. */
    constructor ()
      ensures child == null && sibling == null && chained == null && generation == 0
    {
      child, sibling, chained, generation, byte := null, null, null, 0, 0 as char;
    }
  }

  datatype Cell = Cell(byte: Byte, child: Rule?, sibling: Rule?, generation: nat)

  type Cells = map<Rule, Cell>

  ghost function CellOf(r: Rule): Cell
    reads r
  {
    Cell(r.byte, r.child, r.sibling, r.generation)
  }

  /** The recorded cells are what the nodes really hold. */
  ghost predicate Mirrors(cells: Cells)
    reads cells.Keys
  {
    forall r {:trigger CellOf(r)} :: r in cells ==> cells[r] == CellOf(r)
  }

  // `at` maps each word that has a node to the node ending it; `order` maps each word that may
  // have children, the empty one included, to the bytes of its children in sibling order; and
  // `stored` gives each word's generation, 0 for a node that is only on the way to longer words.
  datatype Shape = Shape(at: map<Bytes, Rule>, order: map<Bytes, Bytes>, stored: map<Bytes, nat>)

  const EMPTY: Shape := Shape(map[], map[[] := []], map[])

  ghost function Nodes(s: Shape): set<Rule> {
    s.at.Values
  }

  /** The i-th child of `w`, or null past the end of its list. */
  ghost function Nth(s: Shape, w: Bytes, i: nat): Rule? {
    if w in s.order && i < |s.order[w]| && w + [s.order[w][i]] in s.at then s.at[w + [s.order[w][i]]] else null
  }

  ghost predicate NoDuplicates(s: Bytes) {
    forall i, j :: 0 <= i < j < |s| ==> s[i] != s[j]
  }

  /**
   The node of a word holds its last byte and its generation, is listed below the parent word, and
   links its first child.
   */
  ghost predicate WordOk(s: Shape, cells: Cells, w: Bytes)
    requires w in s.at
  {
    && |w| > 0
    && w[..|w| - 1] in s.order && w[|w| - 1] in s.order[w[..|w| - 1]]
    && s.at[w] in cells
    && cells[s.at[w]].byte == w[|w| - 1]
    && cells[s.at[w]].child == Nth(s, w, 0)
    && w in s.stored && cells[s.at[w]].generation == s.stored[w]
  }

  /** The siblings below a word carry different bytes and are chained in order. */
  ghost predicate ListOk(s: Shape, cells: Cells, w: Bytes)
    requires w in s.order
  {
    && NoDuplicates(s.order[w])
    && forall i :: 0 <= i < |s.order[w]| ==>
         var child := w + [s.order[w][i]];
         child in s.at && s.at[child] in cells && cells[s.at[child]].sibling == Nth(s, w, i + 1)
  }

  /** Different words have different nodes. */
  ghost predicate OwnNode(s: Shape, v: Bytes, w: Bytes)
    requires v in s.at && w in s.at
  {
    s.at[v] == s.at[w] ==> v == w
  }

  ghost predicate Injective(s: Shape) {
    forall v, w {:trigger OwnNode(s, v, w)} :: v in s.at && w in s.at ==> OwnNode(s, v, w)
  }

  ghost predicate TrieOk(root: Rule?, s: Shape, cells: Cells) {
    && ShapeOk(s)
    && WordsOk(s, cells)
    && ListsOk(s, cells)
    && root == Nth(s, [], 0)
  }

  /** A word may have children when it has a node, or is empty; exactly the words with nodes have rules. */
  ghost predicate Keyed(s: Shape, w: Bytes) {
    (w in s.order <==> w in s.at || |w| == 0) && (w in s.stored <==> w in s.at)
  }

  ghost predicate ShapeOk(s: Shape) {
    && [] in s.order && [] !in s.at
    && (forall w {:trigger Keyed(s, w)} :: Keyed(s, w))
    && Injective(s)
  }

  ghost predicate WordsOk(s: Shape, cells: Cells) {
    forall w {:trigger WordOk(s, cells, w)} :: w in s.at ==> WordOk(s, cells, w)
  }

  ghost predicate ListsOk(s: Shape, cells: Cells) {
    forall w {:trigger ListOk(s, cells, w)} :: w in s.order ==> ListOk(s, cells, w)
  }

  lemma EmptyTrieOk(cells: Cells)
    ensures TrieOk(null, EMPTY, cells)
  {
  }

  /** What writing `g` into the node of `w` makes of the shape. */
  ghost function Rewritten(s: Shape, w: Bytes, g: nat): Shape {
    s.(stored := s.stored[w := g])
  }

  /** Writing a node's generation changes that word's rule and nothing about the links. */
  lemma SetGeneration(root: Rule?, s: Shape, cells: Cells, w: Bytes, g: nat)
    requires TrieOk(root, s, cells) && w in s.at
    ensures s.at[w] in cells
    ensures TrieOk(root, Rewritten(s, w, g), cells[s.at[w] := cells[s.at[w]].(generation := g)])
  {
    NodeInCells(root, s, cells, w);
    RewrittenShape(s, w, g);
    RewrittenWords(s, cells, w, g);
    RewrittenLists(s, cells, w, g);
  }

  lemma RewrittenShape(s: Shape, w: Bytes, g: nat)
    requires ShapeOk(s) && w in s.at
    ensures ShapeOk(Rewritten(s, w, g))
  {
    assert forall v :: Keyed(s, v) ==> Keyed(Rewritten(s, w, g), v);
    assert forall u, v :: u in s.at && v in s.at ==> OwnNode(s, u, v) && OwnNode(Rewritten(s, w, g), u, v);
  }

  lemma RewrittenWords(s: Shape, cells: Cells, w: Bytes, g: nat)
    requires WordsOk(s, cells) && Injective(s) && w in s.at && s.at[w] in cells
    ensures WordsOk(Rewritten(s, w, g), cells[s.at[w] := cells[s.at[w]].(generation := g)])
  {
    forall v | v in s.at
      ensures WordOk(Rewritten(s, w, g), cells[s.at[w] := cells[s.at[w]].(generation := g)], v)
    {
      assert WordOk(s, cells, v) && OwnNode(s, v, w);
    }
  }

  lemma RewrittenLists(s: Shape, cells: Cells, w: Bytes, g: nat)
    requires ListsOk(s, cells) && w in s.at && s.at[w] in cells
    ensures ListsOk(Rewritten(s, w, g), cells[s.at[w] := cells[s.at[w]].(generation := g)])
  {
    forall v | v in s.order
      ensures ListOk(Rewritten(s, w, g), cells[s.at[w] := cells[s.at[w]].(generation := g)], v)
    {
      assert ListOk(s, cells, v);
    }
  }

  lemma NodeInCells(root: Rule?, s: Shape, cells: Cells, w: Bytes)
    requires TrieOk(root, s, cells) && w in s.at
    ensures s.at[w] in cells && s.at[w] in Nodes(s)
  {
    assert WordOk(s, cells, w);
  }

  // ---- links: the C code's `rule_t **link` ----

  datatype Link = Root | Child(node: Rule) | Sibling(node: Rule)

  /** The link that leads to the j-th child of `w` (or to the null after the last one). */
  ghost function LinkTo(s: Shape, w: Bytes, j: nat): Link
    requires w in s.order && j <= |s.order[w]|
    requires j == 0 && |w| != 0 ==> w in s.at
    requires j > 0 ==> w + [s.order[w][j - 1]] in s.at
  {
    if j > 0 then Sibling(s.at[w + [s.order[w][j - 1]]])
    else if |w| == 0 then Root
    else Child(s.at[w])
  }

  ghost function Grown(s: Shape, w: Bytes, c: Byte, n: Rule): Shape
    requires w in s.order
  {
    Shape(s.at[w + [c] := n], s.order[w := s.order[w] + [c]][w + [c] := []], s.stored[w + [c] := 0])
  }

  ghost function RootAfter(root: Rule?, link: Link, n: Rule): Rule? {
    if link.Root? then n else root
  }

  ghost function CellsAfter(cells: Cells, link: Link, n: Rule, c: Byte): Cells
    requires link.Root? || link.node in cells
  {
    var added := cells[n := Cell(c, null, null, 0)];
    match link
    case Root => added
    case Child(p) => added[p := cells[p].(child := n)]
    case Sibling(p) => added[p := cells[p].(sibling := n)]
  }

  lemma ListedChild(root: Rule?, s: Shape, cells: Cells, w: Bytes, i: nat)
    requires TrieOk(root, s, cells) && w in s.order && i < |s.order[w]|
    ensures w + [s.order[w][i]] in s.at
  {
    assert ListOk(s, cells, w);
  }

  lemma LinkInCells(root: Rule?, s: Shape, cells: Cells, w: Bytes, j: nat)
    requires TrieOk(root, s, cells) && w in s.order && j <= |s.order[w]|
    ensures j > 0 ==> w + [s.order[w][j - 1]] in s.at
    ensures j == 0 && |w| != 0 ==> w in s.at
    ensures var link := LinkTo(s, w, j);
      link.Root? || (link.node in Nodes(s) && link.node in cells)
  {
    assert Keyed(s, w);
    if j > 0 {
      ListedChild(root, s, cells, w, j - 1);
      NodeInCells(root, s, cells, w + [s.order[w][j - 1]]);
    } else if |w| != 0 {
      NodeInCells(root, s, cells, w);
    }
  }

  /** A word that is not among its parent's children has no node. */
  lemma UnlistedWord(root: Rule?, s: Shape, cells: Cells, w: Bytes, c: Byte)
    requires TrieOk(root, s, cells) && w in s.order && c !in s.order[w]
    ensures w + [c] !in s.at && w + [c] !in s.order
  {
    var child := w + [c];
    assert child[..|w|] == w && child[|w|] == c;
    assert Keyed(s, child);
    assert child in s.at ==> WordOk(s, cells, child);
  }

  /** `Grown` adds `n` at the end of w's children and leaves every other word's children alone. */
  lemma GrownNth(s: Shape, w: Bytes, c: Byte, n: Rule, v: Bytes, i: nat)
    requires w in s.order && w + [c] !in s.at && w + [c] !in s.order
    ensures v != w && v != w + [c] ==> Nth(Grown(s, w, c, n), v, i) == Nth(s, v, i)
    ensures i < |s.order[w]| && s.order[w][i] != c ==> Nth(Grown(s, w, c, n), w, i) == Nth(s, w, i)
    ensures Nth(Grown(s, w, c, n), w, |s.order[w]|) == n
    ensures Nth(Grown(s, w, c, n), w, |s.order[w]| + 1) == null
    ensures Nth(Grown(s, w, c, n), w + [c], 0) == null
  {
    assert (w + [c])[..|w|] == w && (w + [c])[|w|] == c;
    if v in s.order && i < |s.order[v]| {
      var child := v + [s.order[v][i]];
      assert child[..|v|] == v && child[|v|] == s.order[v][i];
    }
    if i < |s.order[w]| {
      assert (w + [s.order[w][i]])[|w|] == s.order[w][i];
    }
  }

  // What the lemmas below need to know about the link being written: its node is known, and it
  // is the node of one word only.
  ghost predicate Fits(s: Shape, cells: Cells, w: Bytes, c: Byte, link: Link) {
    && w in s.order && c !in s.order[w] && w + [c] !in s.at && w + [c] !in s.order
    && (link.Root? ==> w == [] && s.order[w] == [])
    && (link.Child? ==> w in s.at && link.node == s.at[w] && link.node in cells && s.order[w] == [])
    && (link.Sibling? ==>
          var m := |s.order[w]|;
          && m != 0 && w + [s.order[w][m - 1]] in s.at
          && link.node == s.at[w + [s.order[w][m - 1]]] && link.node in cells)
  }

  lemma GrownWord(s: Shape, cells: Cells, w: Bytes, c: Byte, n: Rule, link: Link, v: Bytes)
    requires Fits(s, cells, w, c, link) && n !in cells
    requires v in s.at && WordOk(s, cells, v)
    requires w in s.at && s.at[v] == s.at[w] ==> v == w
    ensures WordOk(Grown(s, w, c, n), CellsAfter(cells, link, n, c), v)
  {
    var cells' := CellsAfter(cells, link, n, c);
    GrownNth(s, w, c, n, v, 0);
    assert v[..|v| - 1] != w + [c];
    if v == w && s.order[w] == [] {
      assert cells'[s.at[v]].child == n;
    } else {
      assert cells'[s.at[v]].child == cells[s.at[v]].child;
    }
  }

  lemma GrownNewWord(s: Shape, cells: Cells, w: Bytes, c: Byte, n: Rule, link: Link)
    requires Fits(s, cells, w, c, link) && n !in cells
    ensures WordOk(Grown(s, w, c, n), CellsAfter(cells, link, n, c), w + [c])
    ensures ListOk(Grown(s, w, c, n), CellsAfter(cells, link, n, c), w + [c])
  {
    GrownNth(s, w, c, n, w, 0);
    var child := w + [c];
    assert child[..|child| - 1] == w && child[|child| - 1] == c;
    assert Grown(s, w, c, n).order[w][|s.order[w]|] == c;
  }

  lemma GrownOtherList(s: Shape, cells: Cells, w: Bytes, c: Byte, n: Rule, link: Link, v: Bytes)
    requires Fits(s, cells, w, c, link) && n !in cells && Injective(s)
    requires v in s.order && v != w && ListOk(s, cells, v)
    ensures ListOk(Grown(s, w, c, n), CellsAfter(cells, link, n, c), v)
  {
    var s', cells' := Grown(s, w, c, n), CellsAfter(cells, link, n, c);
    forall i | 0 <= i < |s.order[v]|
      ensures var child := v + [s.order[v][i]];
        child in s'.at && s'.at[child] in cells' && cells'[s'.at[child]].sibling == Nth(s', v, i + 1)
    {
      GrownNth(s, w, c, n, v, i + 1);
      var child := v + [s.order[v][i]];
      assert child[..|v|] == v;
      assert (w + [c])[..|w|] == w;
      if link.Sibling? {
        var last := w + [s.order[w][|s.order[w]| - 1]];
        assert last[..|w|] == w;
        assert OwnNode(s, child, last);
      }
    }
  }

  lemma GrownOwnList(s: Shape, cells: Cells, w: Bytes, c: Byte, n: Rule, link: Link)
    requires Fits(s, cells, w, c, link) && n !in cells && Injective(s)
    requires ListOk(s, cells, w)
    ensures ListOk(Grown(s, w, c, n), CellsAfter(cells, link, n, c), w)
  {
    var s', cells' := Grown(s, w, c, n), CellsAfter(cells, link, n, c);
    var m := |s.order[w]|;
    forall i | 0 <= i <= m
      ensures var child := w + [s'.order[w][i]];
        child in s'.at && s'.at[child] in cells' && cells'[s'.at[child]].sibling == Nth(s', w, i + 1)
    {
      GrownNth(s, w, c, n, w, i + 1);
      var child := w + [s'.order[w][i]];
      if i < m {
        assert child[|w|] == s.order[w][i] != c;
        if i + 1 < m {
          var last := w + [s.order[w][m - 1]];
          assert last[|w|] == s.order[w][m - 1] != s.order[w][i];
          assert OwnNode(s, child, last);
        }
      }
    }
  }

  /** The link after the last child fits any byte that is not yet listed. */
  lemma LinkFits(root: Rule?, s: Shape, cells: Cells, w: Bytes, c: Byte)
    requires TrieOk(root, s, cells) && w in s.order && c !in s.order[w]
    ensures LinkTo.requires(s, w, |s.order[w]|) && Fits(s, cells, w, c, LinkTo(s, w, |s.order[w]|))
  {
    LinkInCells(root, s, cells, w, |s.order[w]|);
    UnlistedWord(root, s, cells, w, c);
    assert Keyed(s, w);
  }

  lemma FreshNode(root: Rule?, s: Shape, cells: Cells, n: Rule)
    requires TrieOk(root, s, cells) && n !in cells
    ensures n !in Nodes(s)
  {
    assert forall v :: v in s.at ==> WordOk(s, cells, v);
  }

  /** Storing a fresh node behind the last link of a sibling list keeps the trie in order. */
  lemma GrownTrie(root: Rule?, s: Shape, cells: Cells, w: Bytes, c: Byte, n: Rule, link: Link)
    requires TrieOk(root, s, cells) && Fits(s, cells, w, c, link) && n !in cells
    requires n !in Nodes(s)
    ensures TrieOk(RootAfter(root, link, n), Grown(s, w, c, n), CellsAfter(cells, link, n, c))
  {
    GrownWords(s, cells, w, c, n, link);
    GrownLists(s, cells, w, c, n, link);
    GrownShape(s, w, c, n);
    GrownRoot(s, cells, w, c, n, link);
  }

  lemma GrownRoot(s: Shape, cells: Cells, w: Bytes, c: Byte, n: Rule, link: Link)
    requires Fits(s, cells, w, c, link) && n !in cells && [] !in s.at
    ensures RootAfter(Nth(s, [], 0), link, n) == Nth(Grown(s, w, c, n), [], 0)
  {
    GrownNth(s, w, c, n, [], 0);
  }

  lemma GrownWords(s: Shape, cells: Cells, w: Bytes, c: Byte, n: Rule, link: Link)
    requires WordsOk(s, cells) && Injective(s) && Fits(s, cells, w, c, link) && n !in cells
    ensures WordsOk(Grown(s, w, c, n), CellsAfter(cells, link, n, c))
  {
    forall v | v in Grown(s, w, c, n).at
      ensures WordOk(Grown(s, w, c, n), CellsAfter(cells, link, n, c), v)
    {
      if v == w + [c] {
        GrownNewWord(s, cells, w, c, n, link);
      } else {
        assert WordOk(s, cells, v);
        assert w in s.at ==> OwnNode(s, v, w);
        GrownWord(s, cells, w, c, n, link, v);
      }
    }
  }

  lemma GrownLists(s: Shape, cells: Cells, w: Bytes, c: Byte, n: Rule, link: Link)
    requires ListsOk(s, cells) && Injective(s) && Fits(s, cells, w, c, link) && n !in cells
    ensures ListsOk(Grown(s, w, c, n), CellsAfter(cells, link, n, c))
  {
    forall v | v in Grown(s, w, c, n).order
      ensures ListOk(Grown(s, w, c, n), CellsAfter(cells, link, n, c), v)
    {
      if v == w + [c] {
        GrownNewWord(s, cells, w, c, n, link);
      } else if v == w {
        GrownOwnList(s, cells, w, c, n, link);
      } else {
        GrownOtherList(s, cells, w, c, n, link, v);
      }
    }
  }

  lemma GrownShape(s: Shape, w: Bytes, c: Byte, n: Rule)
    requires ShapeOk(s) && w in s.order && n !in Nodes(s)
    ensures ShapeOk(Grown(s, w, c, n))
  {
    var s' := Grown(s, w, c, n);
    forall v
      ensures Keyed(s', v)
    {
      assert Keyed(s, v) && Keyed(s, w);
    }
    forall u, v | u in s'.at && v in s'.at
      ensures OwnNode(s', u, v)
    {
      assert u in s.at ==> s.at[u] in Nodes(s);
      assert v in s.at ==> s.at[v] in Nodes(s);
      assert u in s.at && v in s.at ==> OwnNode(s, u, v);
    }
  }

  lemma GrownNodes(s: Shape, w: Bytes, c: Byte, n: Rule)
    requires w in s.order && w + [c] !in s.at
    ensures Nodes(Grown(s, w, c, n)) == Nodes(s) + {n}
  {
    var s' := Grown(s, w, c, n);
    assert s'.at[w + [c]] == n;
    forall r | r in Nodes(s)
      ensures r in Nodes(s')
    {
      var v :| v in s.at && s.at[v] == r;
      assert s'.at[v] == r;
    }
  }

  // ---- reading a trie ----

  lemma NthCell(root: Rule?, s: Shape, cells: Cells, w: Bytes, j: nat)
    requires TrieOk(root, s, cells) && w in s.order && j < |s.order[w]|
    ensures var child, node := w + [s.order[w][j]], Nth(s, w, j);
      && child in s.at && node == s.at[child] && node in cells
      && cells[node].byte == s.order[w][j] && cells[node].sibling == Nth(s, w, j + 1)
  {
    ListedChild(root, s, cells, w, j);
    var child := w + [s.order[w][j]];
    assert WordOk(s, cells, child);
    assert ListOk(s, cells, w);
  }

  lemma WordCell(root: Rule?, s: Shape, cells: Cells, w: Bytes)
    requires TrieOk(root, s, cells) && w in s.at
    ensures w in s.order && s.at[w] in cells && cells[s.at[w]].child == Nth(s, w, 0)
    ensures w in s.stored && cells[s.at[w]].generation == s.stored[w]
  {
    assert WordOk(s, cells, w);
    assert Keyed(s, w);
  }

  /** Every stored word's proper prefixes are stored too. */
  ghost predicate Closed(s: Shape) {
    forall v :: v in s.at && |v| > 1 ==> v[..|v| - 1] in s.at
  }

  lemma TrieClosed(root: Rule?, s: Shape, cells: Cells)
    requires TrieOk(root, s, cells)
    ensures Closed(s)
  {
    forall v | v in s.at && |v| > 1
      ensures v[..|v| - 1] in s.at
    {
      assert WordOk(s, cells, v) && Keyed(s, v[..|v| - 1]);
    }
  }

  lemma {:induction false} StoredPrefix(s: Shape, word: Bytes, i: nat, n: nat)
    requires Closed(s) && 0 < i <= n <= |word| && word[..n] in s.at
    ensures word[..i] in s.at
  {
    if i < n {
      var longer := word[..n];
      assert |longer| > 1 && longer[..|longer| - 1] == word[..n - 1];
      assert longer[..|longer| - 1] in s.at;
      StoredPrefix(s, word, i, n - 1);
    }
  }

  /** A byte that is not among the children of a word ends the descent for every longer word. */
  lemma NoLongerWord(s: Shape, word: Bytes, i: nat, n: nat)
    requires Closed(s) && 0 < i <= n <= |word| && word[..i] !in s.at
    ensures word[..n] !in s.at
  {
    if word[..n] in s.at {
      StoredPrefix(s, word, i, n);
    }
  }

  // ---- two tries over one set of nodes ----

  ghost predicate SameCells(s: Shape, cells: Cells, cells': Cells) {
    forall w :: w in s.at ==> s.at[w] in cells && s.at[w] in cells' && cells'[s.at[w]] == cells[s.at[w]]
  }

  /** Records that agree on a trie's own nodes show the same trie. */
  lemma SameTrie(root: Rule?, s: Shape, cells: Cells, cells': Cells)
    requires TrieOk(root, s, cells) && SameCells(s, cells, cells')
    ensures TrieOk(root, s, cells')
  {
    SameWords(s, cells, cells');
    SameLists(s, cells, cells');
  }

  lemma SameWords(s: Shape, cells: Cells, cells': Cells)
    requires WordsOk(s, cells) && SameCells(s, cells, cells')
    ensures WordsOk(s, cells')
  {
    forall w | w in s.at
      ensures WordOk(s, cells', w)
    {
      assert WordOk(s, cells, w);
    }
  }

  lemma SameLists(s: Shape, cells: Cells, cells': Cells)
    requires ListsOk(s, cells) && SameCells(s, cells, cells')
    ensures ListsOk(s, cells')
  {
    forall w | w in s.order
      ensures ListOk(s, cells', w)
    {
      assert ListOk(s, cells, w);
    }
  }

  /** Growing one trie leaves the other one alone. */
  lemma GrownBeside(s: Shape, o: Shape, cells: Cells, w: Bytes, c: Byte, n: Rule, link: Link)
    requires Nodes(s) !! Nodes(o) && Fits(s, cells, w, c, link) && n !in cells
    requires n !in Nodes(o) && (forall v :: v in o.at ==> o.at[v] in cells)
    ensures Nodes(Grown(s, w, c, n)) !! Nodes(o)
    ensures SameCells(o, cells, CellsAfter(cells, link, n, c))
  {
    GrownNodes(s, w, c, n);
    var cells' := CellsAfter(cells, link, n, c);
    forall v | v in o.at
      ensures o.at[v] in cells' && cells'[o.at[v]] == cells[o.at[v]]
    {
      assert o.at[v] in Nodes(o);
      if !link.Root? {
        LinkNode(s, w, c, n, link, cells);
      }
    }
  }

  lemma LinkNode(s: Shape, w: Bytes, c: Byte, n: Rule, link: Link, cells: Cells)
    requires Fits(s, cells, w, c, link) && n !in cells && !link.Root?
    ensures link.node in Nodes(s)
  {
  }

  // ---- walking real nodes ----

  /** What a walk along the children of `w` finds in the nodes. */
  ghost predicate ScanOk(s: Shape, cells: Cells, w: Bytes)
    requires w in s.order
  {
    && Nth(s, w, |s.order[w]|) == null
    && forall j {:trigger Nth(s, w, j)} :: 0 <= j < |s.order[w]| ==>
         && Nth(s, w, j) != null && Nth(s, w, j) in cells
         && cells[Nth(s, w, j)].byte == s.order[w][j]
         && cells[Nth(s, w, j)].sibling == Nth(s, w, j + 1)
  }

  lemma TrieScan(root: Rule?, s: Shape, cells: Cells, w: Bytes)
    requires TrieOk(root, s, cells) && w in s.order
    ensures ScanOk(s, cells, w)
  {
    forall j | 0 <= j < |s.order[w]|
      ensures Nth(s, w, j) != null && Nth(s, w, j) in cells
      ensures cells[Nth(s, w, j)].byte == s.order[w][j] && cells[Nth(s, w, j)].sibling == Nth(s, w, j + 1)
    {
      NthCell(root, s, cells, w, j);
    }
  }

  /** The inner loop of generation_lookup: scan one sibling list for a byte. */
  method FindChild(first: Rule?, c: Byte, ghost s: Shape, ghost cells: Cells, ghost w: Bytes)
    returns (found: Rule?, ghost j: nat)
    requires Mirrors(cells) && w in s.order && ScanOk(s, cells, w) && first == Nth(s, w, 0)
    ensures found == null ==> c !in s.order[w]
    ensures found != null ==> j < |s.order[w]| && s.order[w][j] == c && found == Nth(s, w, j)
  {
    found := first;
    j := 0;
    while found != null && found.byte != c
      invariant j <= |s.order[w]| && found == Nth(s, w, j)
      invariant forall k :: 0 <= k < j ==> s.order[w][k] != c
      decreases |s.order[w]| - j
    {
      assert cells[found] == CellOf(found);
      found := found.sibling;
      j := j + 1;
    }
    assert found != null && j < |s.order[w]| ==> cells[found] == CellOf(found);
  }
}
