/**
 The XML reply of ngx_cache_purge_response.c: the key travels in CDATA sections, and a terminator inside
 the key is split over two of them so that a reader of section 2.7 of XML 1.0 gets the key back.
 */
module CdataEscape {
  import opened Bytes
  import opened Sequences

  const OPEN: Bytes := "<![CDATA["
  const CLOSE: Bytes := "]]>"
  const SPLIT: Bytes := "]]" + CLOSE + OPEN + ">"  // the terminator over two sections: ]]]]><![CDATA[>

  /** The text begins with `]]>`. */
  predicate Closes(text: Bytes) {
    |text| >= 3 && text[0] == ']' && text[1] == ']' && text[2] == '>'
  }

  function Escaped(key: Bytes): Bytes {
    if key == [] then []
    else if Closes(key) then SPLIT + Escaped(key[3..])
    else [key[0]] + Escaped(key[1..])
  }

  /** What escaping adds, as the first pass of the caller asks for it. */
  function Extra(key: Bytes): nat {
    if key == [] then 0
    else if Closes(key) then 12 + Extra(key[3..])
    else Extra(key[1..])
  }

  lemma {:induction false} EscapedLength(key: Bytes)
    ensures |Escaped(key)| == |key| + Extra(key) && Extra(key) <= 4 * |key|
  {
    if key != [] {
      if Closes(key) {
        EscapedLength(key[3..]);
      } else {
        EscapedLength(key[1..]);
      }
    }
  }

  /** One turn of the loop: what is written for the next bytes of the key, and how many they are. */
  lemma EscapeTurn(key: Bytes, i: nat)
    requires i < |key|
    ensures Closes(key[i..]) <==> i + 3 <= |key| && key[i] == ']' && key[i + 1] == ']' && key[i + 2] == '>'
    ensures Closes(key[i..]) ==>
            Escaped(key[i..]) == SPLIT + Escaped(key[i + 3..]) && Extra(key[i..]) == 12 + Extra(key[i + 3..])
    ensures !Closes(key[i..]) ==>
            Escaped(key[i..]) == [key[i]] + Escaped(key[i + 1..]) && Extra(key[i..]) == Extra(key[i + 1..])
  {
    if Closes(key[i..]) {
      assert key[i..][3..] == key[i + 3..];
    }
    assert key[i..][1..] == key[i + 1..];
  }

  /** Write the next bytes, if there is a destination. */
  method Put(dst: array?<Byte>, at: nat, s: Bytes, ghost whole: Bytes, ghost start: nat, ghost done: Bytes)
    requires dst != null ==>
             at == start + |done| && at + |s| <= dst.Length == |whole| && dst[..] == With(whole, start, done)
    modifies if dst == null then {} else {dst}
    ensures dst != null ==> dst[..] == With(whole, start, done + s)
  {
    if dst != null {
      forall k | 0 <= k < |s| {
        dst[at + k] := s[k];
      }
      WithMore(whole, start, done, s);
      assert dst[..] == With(With(whole, start, done), at, s);
    }
  }

  /** With no destination the result is the extra room needed, otherwise the end of what was written. */
  method EscapeKey(dst: array?<Byte>, start: nat, src: Bytes) returns (r: nat)
    requires dst != null ==> start + |src| + Extra(src) <= dst.Length
    modifies if dst == null then {} else {dst}
    ensures r == if dst == null then Extra(src) else start + |src| + Extra(src)
    ensures dst != null ==> |Escaped(src)| == |src| + Extra(src) && dst[..] == With(old(dst[..]), start, Escaped(src))
  {
    EscapedLength(src);
    ghost var whole: Bytes := if dst == null then [] else dst[..];
    var i, at, extra := 0, start, 0;
    ghost var done: Bytes := [];
    assert src[0..] == src;
    while i < |src|
      invariant i <= |src| && extra + Extra(src[i..]) == Extra(src)
      invariant done + Escaped(src[i..]) == Escaped(src) && |done| == i + extra && at == start + |done|
      invariant dst != null ==> dst[..] == With(whole, start, done)
    {
      EscapeTurn(src, i);
      if |src| - i >= 3 && src[i] == ']' && src[i + 1] == ']' && src[i + 2] == '>' {
        Put(dst, at, SPLIT, whole, start, done);
        Associative(done, SPLIT, Escaped(src[i + 3..]));
        done := done + SPLIT;
        at, extra, i := at + 15, extra + 12, i + 3;
      } else {
        Put(dst, at, [src[i]], whole, start, done);
        Associative(done, [src[i]], Escaped(src[i + 1..]));
        done := done + [src[i]];
        at, i := at + 1, i + 1;
      }
    }
    r := if dst != null then at else extra;
  }

  /** `whole` with `s` written over it from `start` on. */
  ghost function With(whole: Bytes, start: nat, s: Bytes): Bytes
    requires start + |s| <= |whole|
  {
    whole[..start] + s + whole[start + |s|..]
  }

  lemma WithMore(whole: Bytes, start: nat, done: Bytes, next: Bytes)
    requires start + |done| + |next| <= |whole|
    ensures With(With(whole, start, done), start + |done|, next) == With(whole, start, done + next)
  {
  }

  // ---- reading it back ----

  /**
   Character data made of CDATA sections, read from outside a section: the content of the consecutive
   sections and what follows them. A section ends at the first `]]>`; None is an unterminated one.
   */
  function Read(text: Bytes, inside: bool): Option<(Bytes, Bytes)>
    decreases |text|
  {
    if !inside then
      if OPEN <= text then Read(text[9..], true) else Some(([], text))
    else if Closes(text) then Read(text[3..], false)
    else if text == [] then None
    else
      match Read(text[1..], true)
      case None => None
      case Some(r) => Some(([text[0]] + r.0, r.1))
  }

  lemma ReadByte(c: Byte, tail: Bytes, key: Bytes, rest: Bytes)
    requires !Closes([c] + tail) && Read(tail, true) == Some((key, rest))
    ensures Read([c] + tail, true) == Some(([c] + key, rest))
  {
    assert ([c] + tail)[1..] == tail;
  }

  lemma ReadClose(tail: Bytes)
    ensures Read(CLOSE + tail, true) == Read(tail, false)
  {
    assert (CLOSE + tail)[3..] == tail;
  }

  lemma ReadOpen(tail: Bytes)
    ensures Read(OPEN + tail, false) == Read(tail, true)
  {
    assert (OPEN + tail)[9..] == tail;
  }

  /** Closing a section and opening the next one reads as nothing. */
  lemma ReadAcross(tail: Bytes)
    ensures Read(CLOSE + (OPEN + tail), true) == Read(tail, true)
  {
    ReadOpen(tail);
    ReadClose(OPEN + tail);
  }

  lemma SplitParts(tail: Bytes)
    ensures SPLIT + tail == "]]" + (CLOSE + (OPEN + (['>'] + tail)))
  {
    Associative4("]]", CLOSE, OPEN, ['>']);
    Associative("]]", CLOSE + (OPEN + ['>']), tail);
    Associative4([], CLOSE, OPEN, ['>']);
    Associative(CLOSE, OPEN + ['>'], tail);
    Associative(OPEN, ['>'], tail);
  }

  lemma TwoBrackets(b: Bytes)
    ensures "]]" + b == [']'] + ([']'] + b)
  {
  }

  /** A split terminator reads as the terminator. */
  lemma ReadSplit(tail: Bytes, key: Bytes, rest: Bytes)
    requires Read(tail, true) == Some((key, rest))
    ensures Read(SPLIT + tail, true) == Some(([']'] + ([']'] + (['>'] + key)), rest))
  {
    var b := CLOSE + (OPEN + (['>'] + tail));
    ReadByte('>', tail, key, rest);
    ReadAcross(['>'] + tail);
    ReadByte(']', b, ['>'] + key, rest);
    ReadByte(']', [']'] + b, [']'] + (['>'] + key), rest);
    SplitParts(tail);
    TwoBrackets(b);
  }

  lemma ClosingKey(key: Bytes)
    requires Closes(key)
    ensures [']'] + ([']'] + (['>'] + key[3..])) == key
  {
  }

  /** The first two bytes survive escaping, and a terminator follows a shorter key. */
  lemma EscapedStart(key: Bytes, rest: Bytes)
    ensures var text := Escaped(key) + (CLOSE + rest);
      |text| >= 2 && (text[0] == ']' && text[1] == '>' ==> |key| >= 2 && key[0] == ']' && key[1] == '>')
  {
    if |key| >= 1 && !Closes(key) {
      assert Escaped(key)[0] == key[0];
      if |key| >= 2 {
        assert Escaped(key[1..]) != [] && Escaped(key[1..])[0] == key[1];
      }
    }
  }

  /** Inside a section, the escaped key and the closing terminator read as the key. */
  lemma {:induction false} ReadEscaped(key: Bytes, rest: Bytes)
    requires !(OPEN <= rest)
    ensures Read(Escaped(key) + (CLOSE + rest), true) == Some((key, rest))
  {
    if key == [] {
      assert Escaped(key) + (CLOSE + rest) == CLOSE + rest;
      ReadClose(rest);
    } else if Closes(key) {
      ReadEscaped(key[3..], rest);
      ReadSplit(Escaped(key[3..]) + (CLOSE + rest), key[3..], rest);
      Associative(SPLIT, Escaped(key[3..]), CLOSE + rest);
      ClosingKey(key);
    } else {
      var tail := Escaped(key[1..]) + (CLOSE + rest);
      ReadEscaped(key[1..], rest);
      EscapedStart(key[1..], rest);
      assert !Closes([key[0]] + tail);
      ReadByte(key[0], tail, key[1..], rest);
      Associative([key[0]], Escaped(key[1..]), CLOSE + rest);
      assert [key[0]] + key[1..] == key;
    }
  }

  /** What the reply holds between `<Key>` and `</Key>`. */
  function Wrapped(key: Bytes): Bytes {
    OPEN + (Escaped(key) + CLOSE)
  }

  const END_KEY: Bytes := "</Key>"

  lemma EndKeyOpensNothing(after: Bytes)
    ensures !(OPEN <= END_KEY + after)
  {
    assert (END_KEY + after)[1] == '/';
  }

  /** Every key comes back unchanged, whatever brackets it holds or ends with, and `</Key>` follows. */
  lemma CdataRoundTrip(key: Bytes, after: Bytes)
    ensures Read(Wrapped(key) + (END_KEY + after), false) == Some((key, END_KEY + after))
  {
    var rest := END_KEY + after;
    EndKeyOpensNothing(after);
    ReadEscaped(key, rest);
    ReadOpen(Escaped(key) + (CLOSE + rest));
    Associative(OPEN, Escaped(key) + CLOSE, rest);
    Associative(Escaped(key), CLOSE, rest);
  }

  const BUFFER_SLACK: nat := 2048

  /** The reply buffer of 2048 + 6 * len bytes holds the wrapped key and leaves the slack for the rest. */
  lemma FitsReplyBuffer(key: Bytes)
    ensures |Wrapped(key)| <= 12 + 5 * |key|
    ensures |Wrapped(key)| + (BUFFER_SLACK - 12) <= BUFFER_SLACK + 6 * |key|
  {
    EscapedLength(key);
  }
}
