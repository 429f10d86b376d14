/**
 What the two tries mean: a baseline, exact rules and prefix rules. A key's live generation is the
 largest of the baseline, its own exact rule and the prefix rules along its folded bytes; this is
 shown equal to the log's answer after every invalidation.
 */
module GenerationRules {
  import opened Bytes
  import opened InvalidationLog

  datatype Rules = Rules(baseline: nat, exact: map<Bytes, nat>, prefix: map<Bytes, nat>) {
    function Table(isPrefix: bool): map<Bytes, nat> {
      if isPrefix then prefix else exact
    }

    function With(isPrefix: bool, table: map<Bytes, nat>): Rules {
      if isPrefix then this.(prefix := table) else this.(exact := table)
    }
  }

  function Max(a: nat, b: nat): nat {
    if a < b then b else a
  }

  function Stored(g: map<Bytes, nat>, word: Bytes): nat {
    if word in g then g[word] else 0
  }

  /** The largest rule stored for one of the first `n` non-empty prefixes of `folded`. */
  function PrefixBest(g: map<Bytes, nat>, folded: Bytes, n: nat): nat
    requires n <= |folded|
  {
    if n == 0 then 0 else Max(PrefixBest(g, folded, n - 1), Stored(g, folded[..n]))
  }

  function RuleMax(rules: Rules, key: Bytes): nat {
    Max(Max(rules.baseline, Stored(rules.exact, key)), PrefixBest(rules.prefix, Fold(key), |key|))
  }

  ghost predicate WordsBounded(g: map<Bytes, nat>, serial: nat) {
    forall w :: w in g ==> g[w] <= serial
  }

  ghost predicate Bounded(rules: Rules, serial: nat) {
    rules.baseline <= serial && WordsBounded(rules.exact, serial) && WordsBounded(rules.prefix, serial)
  }

  ghost predicate Represents(rules: Rules, log: Log) {
    forall key: Bytes :: RuleMax(rules, key) == Live(log, key)
  }

  /** `after` is `before` with word `w` raised; any further words are new nodes still holding 0. */
  ghost predicate Raised(before: map<Bytes, nat>, after: map<Bytes, nat>, w: Bytes, serial: nat) {
    && w in after && after[w] == serial
    && (forall v :: v in before && v != w ==> v in after && after[v] == before[v])
    && (forall v :: v in after && v != w && v !in before ==> after[v] == 0)
  }

  /** How a successful invalidation with the new serial changes the rules. */
  ghost predicate Applied(before: Rules, after: Rules, sel: Selector, serial: nat) {
    match sel
    case Everything => after == Rules(serial, map[], map[])
    case Exact(w) =>
      && after.baseline == before.baseline && after.prefix == before.prefix
      && w != [] && Raised(before.exact, after.exact, w, serial)
    case Prefix(w) =>
      && after.baseline == before.baseline && after.exact == before.exact
      && w != [] && Raised(before.prefix, after.prefix, w, serial)
  }

  lemma {:induction false} PrefixBestBound(g: map<Bytes, nat>, folded: Bytes, n: nat, serial: nat)
    requires n <= |folded| && WordsBounded(g, serial)
    ensures PrefixBest(g, folded, n) <= serial
  {
    if n != 0 {
      PrefixBestBound(g, folded, n - 1, serial);
    }
  }

  lemma {:induction false} RaisedPrefix(before: map<Bytes, nat>, after: map<Bytes, nat>, w: Bytes, serial: nat,
                                        folded: Bytes, n: nat)
    requires n <= |folded| && w != [] && Raised(before, after, w, serial + 1) && WordsBounded(before, serial)
    ensures PrefixBest(after, folded, n) ==
            if |w| <= n && w == folded[..|w|] then serial + 1 else PrefixBest(before, folded, n)
  {
    if n != 0 {
      RaisedPrefix(before, after, w, serial, folded, n - 1);
      PrefixBestBound(before, folded, n - 1, serial);
      assert |folded[..n]| == n;
    }
  }

  lemma {:induction false} NoPrefixes(folded: Bytes, n: nat)
    requires n <= |folded|
    ensures PrefixBest(map[], folded, n) == 0
  {
    if n != 0 {
      NoPrefixes(folded, n - 1);
    }
  }

  /** One key's maximum after an invalidation: the new serial if the selector covers it, else unchanged. */
  lemma AppliedMax(before: Rules, after: Rules, sel: Selector, serial: nat, key: Bytes)
    requires Bounded(before, serial) && Applied(before, after, sel, serial + 1)
    ensures RuleMax(after, key) == if Covers(sel, key) then serial + 1 else RuleMax(before, key)
  {
    var folded := Fold(key);
    PrefixBestBound(before.prefix, folded, |key|, serial);
    match sel
    case Everything => NoPrefixes(folded, |key|);
    case Exact(w) =>
    case Prefix(w) => RaisedPrefix(before.prefix, after.prefix, w, serial, folded, |key|);
  }

  lemma AppliedBounded(before: Rules, after: Rules, sel: Selector, serial: nat)
    requires Bounded(before, serial) && Applied(before, after, sel, serial + 1)
    ensures Bounded(after, serial + 1)
  {
  }

  /** The rules keep answering like the log. */
  lemma AppliedRepresents(before: Rules, after: Rules, sel: Selector, log: Log)
    requires Represents(before, log) && Bounded(before, Serial(log))
    requires Applied(before, after, sel, Serial(log) + 1)
    ensures Represents(after, log + [sel])
  {
    forall key: Bytes
      ensures RuleMax(after, key) == Live(log + [sel], key)
    {
      AppliedMax(before, after, sel, Serial(log), key);
      LiveAfter(log, sel, key);
      assert RuleMax(before, key) == Live(log, key);
    }
  }

  lemma InitialRepresents()
    ensures Represents(Rules(1, map[], map[]), [])
  {
    forall key: Bytes
      ensures RuleMax(Rules(1, map[], map[]), key) == Live([], key)
    {
      NoPrefixes(Fold(key), |key|);
    }
  }

  // ---- inserting a word ----

  /** A word that has a node keeps its rule; a new one starts at 0. */
  function Pad(g: map<Bytes, nat>, word: Bytes): map<Bytes, nat> {
    if word in g then g else g[word := 0]
  }

  /** The rules once every non-empty prefix of `word` up to length `n` has a node. */
  function PadAll(g: map<Bytes, nat>, word: Bytes, n: nat): map<Bytes, nat>
    requires n <= |word|
  {
    if n == 0 then g else Pad(PadAll(g, word, n - 1), word[..n])
  }

  /** How many nodes that takes. */
  function Missing(g: map<Bytes, nat>, word: Bytes, n: nat): nat
    requires n <= |word|
  {
    if n == 0 then 0 else Missing(g, word, n - 1) + if word[..n] in g then 0 else 1
  }

  lemma {:induction false} MissingMonotone(g: map<Bytes, nat>, word: Bytes, i: nat, n: nat)
    requires i <= n <= |word|
    ensures Missing(g, word, i) <= Missing(g, word, n)
  {
    if i < n {
      MissingMonotone(g, word, i, n - 1);
    }
  }

  lemma {:induction false} PadAllKeeps(g: map<Bytes, nat>, word: Bytes, n: nat, v: Bytes)
    requires n <= |word|
    ensures v in g ==> v in PadAll(g, word, n) && PadAll(g, word, n)[v] == g[v]
    ensures v !in g && v in PadAll(g, word, n) ==> PadAll(g, word, n)[v] == 0
    ensures |v| > n ==> (v in PadAll(g, word, n) <==> v in g)
  {
    if n != 0 {
      PadAllKeeps(g, word, n - 1, v);
    }
  }

  /** One more byte of the path. */
  lemma PadStep(rules: Rules, isPrefix: bool, word: Bytes, i: nat)
    requires i < |word|
    ensures var g, now := rules.Table(isPrefix), rules.With(isPrefix, PadAll(rules.Table(isPrefix), word, i));
      && now.With(isPrefix, Pad(now.Table(isPrefix), word[..i + 1])) == rules.With(isPrefix, PadAll(g, word, i + 1))
      && (word[..i + 1] in now.Table(isPrefix) <==> word[..i + 1] in g)
      && Missing(g, word, i + 1) == Missing(g, word, i) + if word[..i + 1] in g then 0 else 1
  {
    PadAllKeeps(rules.Table(isPrefix), word, i, word[..i + 1]);
  }

  /** Padding the path and then writing the last node raises exactly that word. */
  lemma PaddedRaised(g: map<Bytes, nat>, word: Bytes, serial: nat)
    requires word != []
    ensures word in PadAll(g, word, |word|)
    ensures Raised(g, PadAll(g, word, |word|)[word := serial], word, serial)
  {
    assert word[..|word|] == word;
    forall v: Bytes
      ensures v in g ==> v in PadAll(g, word, |word|) && PadAll(g, word, |word|)[v] == g[v]
      ensures v !in g && v in PadAll(g, word, |word|) ==> PadAll(g, word, |word|)[v] == 0
    {
      PadAllKeeps(g, word, |word|, v);
    }
  }

  /** Every stored word's proper prefixes are stored too. */
  ghost predicate PrefixClosed(g: map<Bytes, nat>) {
    forall v :: v in g && |v| > 1 ==> v[..|v| - 1] in g
  }

  /** Invalidating a selector that is already stored needs no node at all. */
  lemma {:induction false} StoredNeedsNothing(g: map<Bytes, nat>, word: Bytes, n: nat)
    requires PrefixClosed(g) && n <= |word| && (n == 0 || word[..n] in g)
    ensures Missing(g, word, n) == 0
  {
    if n != 0 {
      assert word[..n][..n - 1] == word[..n - 1];
      StoredNeedsNothing(g, word, n - 1);
    }
  }

  /** Memory pressure broadens an invalidation to the whole namespace: it never drops one. */
  function Effective(rules: Rules, sel: Selector, budget: nat): Selector {
    match sel
    case Everything => Everything
    case Exact(w) => if budget < Missing(rules.exact, w, |w|) then Everything else sel
    case Prefix(w) => if budget < Missing(rules.prefix, w, |w|) then Everything else sel
  }

  /** Whatever the allocator does, the keys asked for are covered. */
  lemma EffectiveCovers(rules: Rules, sel: Selector, budget: nat, key: Bytes)
    requires Covers(sel, key)
    ensures Covers(Effective(rules, sel, budget), key)
  {
  }

  /** With room for a node for each byte of the word, what was asked for is what is done. */
  lemma EnoughMemory(rules: Rules, sel: Selector, budget: nat)
    requires match sel case Everything => true case Exact(w) => |w| <= budget case Prefix(w) => |w| <= budget
    ensures Effective(rules, sel, budget) == sel
  {
    match sel
    case Everything =>
    case Exact(w) => MissingAtMost(rules.exact, w, |w|);
    case Prefix(w) => MissingAtMost(rules.prefix, w, |w|);
  }

  lemma {:induction false} MissingAtMost(g: map<Bytes, nat>, word: Bytes, n: nat)
    requires n <= |word|
    ensures Missing(g, word, n) <= n
  {
    if n != 0 {
      MissingAtMost(g, word, n - 1);
    }
  }

  /** What the insertion does to the rules is what the selector asks for. */
  lemma RecordApplies(before: Rules, isPrefix: bool, word: Bytes, serial: nat)
    requires word != []
    ensures word in PadAll(before.Table(isPrefix), word, |word|)
    ensures var after := before.With(isPrefix, PadAll(before.Table(isPrefix), word, |word|)[word := serial]);
      Applied(before, after, if isPrefix then Prefix(word) else Exact(word), serial)
  {
    PaddedRaised(before.Table(isPrefix), word, serial);
  }
}
