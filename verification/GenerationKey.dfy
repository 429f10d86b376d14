/**
 The encoded cache key `p4:<namespace>:<epoch>:<generation>:<logical key>`: how
 ngx_cache_purge_invalidation.c writes it into a request's snapshot and reads it back from a file.
 */
module GenerationKey {
  import opened Bytes
  import Sequences

  const EPOCH_LENGTH: nat := 10
  const HEX_LENGTH: nat := 16

  datatype Parts = Parts(epoch: Bytes, generation: nat, logical: Bytes)

  datatype Decoded = NotOurs | Key(parts: Parts)

  /** The alphabet namespace_create accepts; it leaves out the separator. */
  predicate NameByte(c: Byte) {
    'a' <= c <= 'z' || 'A' <= c <= 'Z' || '0' <= c <= '9' || c == '_' || c == '-'
  }

  predicate ValidName(name: Bytes) {
    1 <= |name| <= 32 && forall c <- name :: NameByte(c)
  }

  predicate ValidEpoch(epoch: Bytes) {
    |epoch| == EPOCH_LENGTH && forall c <- epoch :: '0' <= c <= '9'
  }

  // ---- hexadecimal fields ----

  /** One lower-case hexadecimal digit, as `%016xL` prints it. */
  function HexDigit(d: nat): Byte
    requires d < 16
  {
    "0123456789abcdef"[d]
  }

  /** ngx_hextoi on one byte; -1 stands for NGX_ERROR. Both letter cases are read. */
  function HexValue(c: Byte): (v: int)
    ensures -1 <= v < 16
  {
    if '0' <= c <= '9' then c as int - '0' as int
    else if 'a' <= c <= 'f' then c as int - 'a' as int + 10
    else if 'A' <= c <= 'F' then c as int - 'A' as int + 10
    else -1
  }

  predicate AllHex(s: Bytes) {
    forall c <- s :: HexValue(c) >= 0
  }

  function HexOf(value: nat, width: nat): (s: Bytes)
    ensures |s| == width
  {
    if width == 0 then [] else HexOf(value / 16, width - 1) + [HexDigit(value % 16)]
  }

  function ValueOf(s: Bytes): nat
    requires AllHex(s)
  {
    if |s| == 0 then 0 else ValueOf(s[..|s| - 1]) * 16 + HexValue(s[|s| - 1])
  }

  function Pow16(n: nat): (p: nat)
    ensures p >= 1
  {
    if n == 0 then 1 else 16 * Pow16(n - 1)
  }

  lemma DigitValue(d: nat)
    requires d < 16
    ensures HexValue(HexDigit(d)) == d
  {
  }

  lemma ValueMore(front: Bytes, last: Byte)
    requires AllHex(front) && HexValue(last) >= 0
    ensures AllHex(front + [last]) && ValueOf(front + [last]) == ValueOf(front) * 16 + HexValue(last)
  {
    assert (front + [last])[..|front|] == front;
  }

  lemma {:induction false} HexRoundTrip(value: nat, width: nat)
    requires value < Pow16(width)
    ensures AllHex(HexOf(value, width)) && ValueOf(HexOf(value, width)) == value
  {
    if width != 0 {
      assert Pow16(width) == 16 * Pow16(width - 1);
      HexRoundTrip(value / 16, width - 1);
      DigitValue(value % 16);
      ValueMore(HexOf(value / 16, width - 1), HexDigit(value % 16));
    }
  }

  lemma DigitRoundTrip(c: Byte)
    requires HexValue(c) >= 0
    ensures HexDigit(HexValue(c)) == ToLower(c)
  {
  }

  /** Reading a field and printing it again only folds the letter case of its digits. */
  lemma {:induction false} ValueRoundTrip(s: Bytes)
    requires AllHex(s)
    ensures ValueOf(s) < Pow16(|s|) && HexOf(ValueOf(s), |s|) == Fold(s)
  {
    if |s| != 0 {
      var front, last := s[..|s| - 1], s[|s| - 1];
      ValueRoundTrip(front);
      DigitRoundTrip(last);
      ShiftedDigit(ValueOf(front), HexValue(last));
      assert Fold(s) == Fold(front) + [ToLower(last)];
    }
  }

  lemma ShiftedDigit(high: nat, digit: nat)
    requires digit < 16
    ensures (high * 16 + digit) / 16 == high && (high * 16 + digit) % 16 == digit
  {
  }

  // ---- the whole key ----

  function Encode(name: Bytes, parts: Parts): (key: Bytes) {
    "p4:" + name + ":" + parts.epoch + ":" + HexOf(parts.generation, HEX_LENGTH) + ":" + parts.logical
  }

  /** Everything before the logical key: marker, name, epoch, generation and their separators. */
  function HeaderLength(name: Bytes): nat {
    3 + |name| + 1 + EPOCH_LENGTH + 1 + HEX_LENGTH + 1
  }

  function Slice(key: Bytes, from: nat, length: nat): Bytes
    requires from + length <= |key|
  {
    key[from..from + length]
  }

  /** What a key must look like for generation_decode to accept it. */
  predicate WellFormed(name: Bytes, key: Bytes) {
    var n := |name|;
    && HeaderLength(name) <= |key|
    && Slice(key, 0, 3) == "p4:" && Slice(key, 3, n) == name && key[3 + n] == ':'
    && key[n + 14] == ':' && key[n + 31] == ':'
    && ValidEpoch(Slice(key, n + 4, EPOCH_LENGTH))
    && AllHex(Slice(key, n + 15, HEX_LENGTH))
  }

  function Decode(name: Bytes, key: Bytes): Decoded {
    var n := |name|;
    if WellFormed(name, key) then
      Key(Parts(Slice(key, n + 4, EPOCH_LENGTH), ValueOf(Slice(key, n + 15, HEX_LENGTH)), key[n + 32..]))
    else
      NotOurs
  }

  /** What a key of the namespace looks like, byte by byte; both cases of the hexadecimal digits are read. */
  lemma OwnKeyExactly(name: Bytes, key: Bytes)
    ensures Decode(name, key).Key? <==>
            && |name| + 32 <= |key| && key[..3] == "p4:" && key[3..3 + |name|] == name && key[3 + |name|] == ':'
            && (forall i :: |name| + 4 <= i < |name| + 14 ==> '0' <= key[i] <= '9')
            && key[|name| + 14] == ':'
            && (forall i :: |name| + 15 <= i < |name| + 31 ==>
                  '0' <= key[i] <= '9' || 'a' <= key[i] <= 'f' || 'A' <= key[i] <= 'F')
            && key[|name| + 31] == ':'
  {
    var n := |name|;
    if n + 32 <= |key| {
      var epoch, field := Slice(key, n + 4, EPOCH_LENGTH), Slice(key, n + 15, HEX_LENGTH);
      assert forall i :: n + 4 <= i < n + 14 ==> key[i] == epoch[i - (n + 4)];
      assert forall i :: n + 15 <= i < n + 31 ==> key[i] == field[i - (n + 15)];
      EachIn(epoch);
      EachIn(field);
    }
  }

  lemma EachIn(s: Bytes)
    ensures ValidEpoch(s) <==> |s| == 10 && forall i :: 0 <= i < |s| ==> '0' <= s[i] <= '9'
    ensures AllHex(s) <==> forall i :: 0 <= i < |s| ==>
              '0' <= s[i] <= '9' || 'a' <= s[i] <= 'f' || 'A' <= s[i] <= 'F'
  {
    assert forall i :: 0 <= i < |s| ==> s[i] in s;
  }

  /** The names that a namespace may have. */
  lemma ValidNameExactly(name: Bytes)
    ensures ValidName(name) <==>
            && 1 <= |name| <= 32
            && forall i :: 0 <= i < |name| ==>
                 || 'a' <= name[i] <= 'z' || 'A' <= name[i] <= 'Z' || '0' <= name[i] <= '9'
                 || name[i] == '_' || name[i] == '-'
  {
    assert forall i :: 0 <= i < |name| ==> name[i] in name;
  }

  /** The loop over the ten epoch digits. */
  method ScanEpoch(epoch: Bytes) returns (ok: bool)
    requires |epoch| == EPOCH_LENGTH
    ensures ok == ValidEpoch(epoch)
  {
    for i := 0 to EPOCH_LENGTH
      invariant forall j :: 0 <= j < i ==> '0' <= epoch[j] <= '9'
    {
      if epoch[i] < '0' || epoch[i] > '9' {
        assert epoch[i] in epoch;
        return false;
      }
    }
    return true;
  }

  /** The loop over the sixteen generation digits, shifting one nibble in at a time. */
  method ScanGeneration(field: Bytes) returns (ok: bool, generation: nat)
    requires |field| == HEX_LENGTH
    ensures ok == AllHex(field)
    ensures ok ==> generation == ValueOf(field)
  {
    generation := 0;
    for i := 0 to HEX_LENGTH
      invariant AllHex(field[..i]) && generation == ValueOf(field[..i])
    {
      var digit := HexValue(field[i]);
      if digit < 0 {
        assert field[i] in field;
        return false, 0;
      }
      assert field[..i + 1][..i] == field[..i];
      generation := generation * 16 + digit;
    }
    assert field[..HEX_LENGTH] == field;
    return true, generation;
  }

  /** ngx_http_cache_purge_generation_decode. */
  method DecodeKey(name: Bytes, key: Bytes) returns (r: Decoded)
    ensures r == Decode(name, key)
  {
    var n := |name|;
    if |key| < HeaderLength(name) || Slice(key, 0, 3) != "p4:" || Slice(key, 3, n) != name || key[3 + n] != ':' {
      return NotOurs;
    }
    var epoch := Slice(key, n + 4, EPOCH_LENGTH);
    if key[n + 14] != ':' || key[n + 31] != ':' {
      return NotOurs;
    }
    var ok := ScanEpoch(epoch);
    if !ok {
      return NotOurs;
    }
    var generation;
    ok, generation := ScanGeneration(Slice(key, n + 15, HEX_LENGTH));
    if !ok {
      return NotOurs;
    }
    return Key(Parts(epoch, generation, key[n + 32..]));
  }

  lemma Pow16Of16()
    ensures Pow16(HEX_LENGTH) == UINT64_MAX + 1
  {
    assert Pow16(4) == 0x1_0000;
    assert Pow16(8) == 0x1_0000_0000;
    assert Pow16(12) == 0x1_0000_0000_0000;
  }

  lemma EncodedFields(name: Bytes, parts: Parts)
    requires |parts.epoch| == EPOCH_LENGTH
    ensures var key, n := Encode(name, parts), |name|;
      && |key| == |parts.logical| + n + 32
      && Slice(key, 0, 3) == "p4:" && Slice(key, 3, n) == name && key[3 + n] == ':'
      && Slice(key, n + 4, EPOCH_LENGTH) == parts.epoch && key[n + 14] == ':'
      && Slice(key, n + 15, HEX_LENGTH) == HexOf(parts.generation, HEX_LENGTH) && key[n + 31] == ':'
      && key[n + 32..] == parts.logical
  {
  }

  /** Hexadecimal with lower-case digits, the highest first, padded with zeros. */
  lemma HexByExample(d: nat)
    requires d < 16
    ensures HexDigit(d) as int == if d < 10 then '0' as int + d else 'a' as int + d - 10
    ensures HexOf(0x1f, 3) == "01f"
  {
    assert HexOf(0, 1) == "0" && HexOf(1, 2) == "01";
  }

  /** Every key the module writes is read back as the parts it was written from. */
  lemma EncodeDecode(name: Bytes, parts: Parts)
    requires ValidEpoch(parts.epoch) && parts.generation <= UINT64_MAX
    ensures Decode(name, Encode(name, parts)) == Key(parts)
    ensures |Encode(name, parts)| == |parts.logical| + |name| + 32
  {
    EncodedFields(name, parts);
    Pow16Of16();
    HexRoundTrip(parts.generation, HEX_LENGTH);
  }

  /** The other direction: a key that decodes is its parts encoded, up to the case of the hex field. */
  lemma DecodeEncode(name: Bytes, key: Bytes)
    requires Decode(name, key).Key?
    ensures var n, parts := |name|, Decode(name, key).parts;
      && ValidEpoch(parts.epoch) && parts.generation <= UINT64_MAX
      && Encode(name, parts) == key[..n + 15] + Fold(Slice(key, n + 15, HEX_LENGTH)) + key[n + 31..]
  {
    var n := |name|;
    FieldOf(name, key);
    FrontOf(name, key);
    BackOf(name, key);
    Sequences.Associative(key[..n + 15] + Fold(Slice(key, n + 15, HEX_LENGTH)), ":", key[n + 32..]);
  }

  lemma FieldOf(name: Bytes, key: Bytes)
    requires WellFormed(name, key)
    ensures var field := Slice(key, |name| + 15, HEX_LENGTH);
      ValueOf(field) <= UINT64_MAX && HexOf(ValueOf(field), HEX_LENGTH) == Fold(field)
  {
    Pow16Of16();
    ValueRoundTrip(Slice(key, |name| + 15, HEX_LENGTH));
  }

  lemma BackOf(name: Bytes, key: Bytes)
    requires WellFormed(name, key)
    ensures key[|name| + 31..] == ":" + key[|name| + 32..]
  {
  }

  lemma FrontOf(name: Bytes, key: Bytes)
    requires WellFormed(name, key)
    ensures key[..|name| + 15] == "p4:" + name + ":" + Slice(key, |name| + 4, EPOCH_LENGTH) + ":"
  {
    var n := |name|;
    assert key[..n + 15] == key[..3] + key[3..3 + n] + [key[3 + n]] + key[n + 4..n + 14] + [key[n + 14]];
  }

  lemma NameHasNoSeparator(name: Bytes, i: nat)
    requires ValidName(name) && i < |name|
    ensures name[i] != ':'
  {
    assert name[i] in name;
  }

  /** The separator after the name tells where it ends, so one key carries one name. */
  lemma NameIsDetermined(name: Bytes, other: Bytes, key: Bytes)
    requires ValidName(name) && ValidName(other)
    requires 3 + |name| < |key| && key[3..3 + |name|] == name && key[3 + |name|] == ':'
    requires 3 + |other| < |key| && key[3..3 + |other|] == other && key[3 + |other|] == ':'
    ensures name == other
  {
    if |other| < |name| {
      NameHasNoSeparator(name, |other|);
    } else if |name| < |other| {
      NameHasNoSeparator(other, |name|);
    }
  }

  /** A key written for one namespace is foreign to every other namespace. */
  lemma ForeignNamespace(name: Bytes, other: Bytes, parts: Parts)
    requires ValidName(name) && ValidName(other) && name != other && |parts.epoch| == EPOCH_LENGTH
    ensures Decode(other, Encode(name, parts)) == NotOurs
  {
    EncodedFields(name, parts);
    if WellFormed(other, Encode(name, parts)) {
      NameIsDetermined(name, other, Encode(name, parts));
    }
  }

  /** Equal encodings come from equal parts. */
  lemma EncodeInjective(name: Bytes, a: Parts, b: Parts)
    requires ValidEpoch(a.epoch) && ValidEpoch(b.epoch)
    requires a.generation <= UINT64_MAX && b.generation <= UINT64_MAX
    requires Encode(name, a) == Encode(name, b)
    ensures a == b
  {
    EncodeDecode(name, a);
    EncodeDecode(name, b);
  }
}
