/**
 What can be reached from the two tries by following real `child` and `sibling` pointers: in every state of a
 namespace exactly the allocated nodes, each from one of the tries.
 */
module RuleReach {
  import opened Bytes
  import opened RuleTrie
  import opened Generation

  /** Following `n` pointers of these nodes leads from `from` to `r`. */
  ghost predicate Leads(nodes: set<Rule>, from: Rule?, r: Rule, n: nat)
    reads nodes
  {
    if n == 0 then from == r
    else from != null && from in nodes && (Leads(nodes, from.child, r, n - 1) || Leads(nodes, from.sibling, r, n - 1))
  }

  ghost predicate Reachable(nodes: set<Rule>, root: Rule?, r: Rule)
    reads nodes
  {
    exists n: nat :: Leads(nodes, root, r, n)
  }

  lemma {:induction false} LeadsFurther(nodes: set<Rule>, from: Rule?, r: Rule, n: nat, next: Rule)
    requires Leads(nodes, from, r, n) && r in nodes && (next == r.child || next == r.sibling)
    ensures Leads(nodes, from, next, n + 1)
  {
    if n > 0 {
      if Leads(nodes, from.child, r, n - 1) {
        LeadsFurther(nodes, from.child, r, n - 1, next);
      } else {
        LeadsFurther(nodes, from.sibling, r, n - 1, next);
      }
    } else {
      assert Leads(nodes, next, next, 0);
    }
  }

  lemma ReachableNext(nodes: set<Rule>, root: Rule?, r: Rule, next: Rule)
    requires Reachable(nodes, root, r) && r in nodes && (next == r.child || next == r.sibling)
    ensures Reachable(nodes, root, next)
  {
    var n: nat :| Leads(nodes, root, r, n);
    LeadsFurther(nodes, root, r, n, next);
  }

  /** The record of the nodes is right, and the trie is in order. */
  ghost predicate Trie(root: Rule?, s: Shape, cells: Cells)
    reads cells.Keys
  {
    TrieOk(root, s, cells) && Mirrors(cells)
  }

  /** The i-th child of a word can be reached if the word itself can. */
  lemma {:induction false} ChildReached(root: Rule?, s: Shape, cells: Cells, w: Bytes, i: nat)
    requires Trie(root, s, cells) && w in s.order && i < |s.order[w]|
    requires w in s.at ==> s.at[w] in cells && Reachable(cells.Keys, root, s.at[w])
    ensures w + [s.order[w][i]] in s.at && Reachable(cells.Keys, root, s.at[w + [s.order[w][i]]])
  {
    assert ListOk(s, cells, w) && Keyed(s, w);
    var here := s.at[w + [s.order[w][i]]];
    if i > 0 {
      ChildReached(root, s, cells, w, i - 1);
      var before := s.at[w + [s.order[w][i - 1]]];
      assert before.sibling == here by {
        assert cells[before] == CellOf(before);
      }
      ReachableNext(cells.Keys, root, before, here);
    } else if w == [] {
      assert Leads(cells.Keys, root, here, 0);
    } else {
      assert WordOk(s, cells, w) && cells[s.at[w]] == CellOf(s.at[w]);
      ReachableNext(cells.Keys, root, s.at[w], here);
    }
  }

  lemma {:induction false} WordReached(root: Rule?, s: Shape, cells: Cells, w: Bytes)
    requires Trie(root, s, cells) && w in s.at
    ensures s.at[w] in cells && Reachable(cells.Keys, root, s.at[w])
    decreases |w|
  {
    assert WordOk(s, cells, w);
    var up, c := w[..|w| - 1], w[|w| - 1];
    var i :| 0 <= i < |s.order[up]| && s.order[up][i] == c;
    assert w == up + [c];
    if up in s.at {
      WordReached(root, s, cells, up);
    }
    ChildReached(root, s, cells, up, i);
  }

  /** Pointers of a trie's nodes stay within the trie. */
  lemma PointersStay(root: Rule?, s: Shape, cells: Cells, r: Rule)
    requires Trie(root, s, cells) && r in Nodes(s)
    ensures r in cells && (r.child == null || r.child in Nodes(s)) && (r.sibling == null || r.sibling in Nodes(s))
  {
    var w :| w in s.at && s.at[w] == r;
    assert WordOk(s, cells, w) && cells[r] == CellOf(r);
    var up, c := w[..|w| - 1], w[|w| - 1];
    assert ListOk(s, cells, up);
    var i :| 0 <= i < |s.order[up]| && s.order[up][i] == c;
    assert w == up + [c];
    NthStays(s, w, 0);
    NthStays(s, up, i + 1);
  }

  lemma NthStays(s: Shape, w: Bytes, i: nat)
    ensures Nth(s, w, i) == null || Nth(s, w, i) in Nodes(s)
  {
  }

  lemma {:induction false} LeadsInside(root: Rule?, s: Shape, cells: Cells, from: Rule?, r: Rule, n: nat)
    requires Trie(root, s, cells) && (from == null || from in Nodes(s)) && Leads(cells.Keys, from, r, n)
    ensures r in Nodes(s)
  {
    if n > 0 {
      PointersStay(root, s, cells, from);
      if Leads(cells.Keys, from.child, r, n - 1) {
        LeadsInside(root, s, cells, from.child, r, n - 1);
      } else {
        LeadsInside(root, s, cells, from.sibling, r, n - 1);
      }
    }
  }

  /** The nodes a trie's shape names are those that can be reached from its root. */
  lemma ReachableExactly(root: Rule?, s: Shape, cells: Cells, r: Rule)
    requires Trie(root, s, cells)
    ensures Reachable(cells.Keys, root, r) <==> r in Nodes(s)
  {
    NthStays(s, [], 0);
    if Reachable(cells.Keys, root, r) {
      var n: nat :| Leads(cells.Keys, root, r, n);
      LeadsInside(root, s, cells, root, r, n);
    }
    if r in Nodes(s) {
      var w :| w in s.at && s.at[w] == r;
      WordReached(root, s, cells, w);
    }
  }

  /**
   In every state of a namespace the nodes that can be reached from the two tries are exactly those of the
   allocated list, none from both tries, and none of them is garbage.
   */
  lemma ReachableIsAllocated(g: GenerationState, r: Rule)
    requires g.Structured()
    ensures r in SetOf(g.live) <==>
            Reachable(SetOf(g.live), g.exact, r) || Reachable(SetOf(g.live), g.prefix, r)
    ensures !(Reachable(SetOf(g.live), g.exact, r) && Reachable(SetOf(g.live), g.prefix, r))
    ensures r in SetOf(g.live) ==> r !in SetOf(g.detached)
  {
    assert g.Holds(ListsLinked) && g.Holds(TriesSound) && g.Holds(Recorded);
    ReachableExactly(g.exact, g.exactShape, g.cells, r);
    ReachableExactly(g.prefix, g.prefixShape, g.cells, r);
    forall i, j | 0 <= i < |g.live| && 0 <= j < |g.detached|
      ensures g.live[i] != g.detached[j]
    {
      assert Apart(g.live + g.detached, i, |g.live| + j);
    }
  }
}
