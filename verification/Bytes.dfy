/** Byte strings as the module sees them: an `ngx_str_t` is a sequence of bytes. */
module Bytes {
  // A byte, written as the character with that code so that wire literals stay readable.
  type Byte = c: char | c as int < 256

  type Bytes = seq<Byte>

  datatype Option<+T> = None | Some(value: T)

  function Flag(b: bool): nat {
    if b then 1 else 0
  }

  const UINT64_MAX: nat := 0xFFFF_FFFF_FFFF_FFFF

  /** ngx_tolower: ASCII only. */
  function ToLower(c: Byte): Byte {
    if 'A' <= c <= 'Z' then (c as int + 32) as char else c
  }

  /** The bytes of `s`, each folded to lower case. */
  function Fold(s: Bytes): (r: Bytes)
    ensures |r| == |s|
    ensures forall i :: 0 <= i < |s| ==> r[i] == ToLower(s[i])
  {
    seq(|s|, i requires 0 <= i < |s| => ToLower(s[i]))
  }

  lemma FoldTake(s: Bytes, n: nat)
    requires n <= |s|
    ensures Fold(s[..n]) == Fold(s)[..n]
  {
  }
}
