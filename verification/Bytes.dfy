/** Bytes, C strings and the small datatypes shared by the other modules. */
module Bytes {

  type byte = b: int | 0 <= b < 256

  const NUL: byte := 0x00
  const DOT: byte := 0x2E
  const SLASH: byte := 0x2F

  const TWO_64: nat := 0x1_0000_0000_0000_0000

  /** A pointer, a size_t, an unsigned long or the bits of a double. */
  type Word = w: int | 0 <= w < TWO_64

  datatype Option<+T> = None | Some(value: T)

  /** A byte string as C sees it: everything before the first NUL. */
  function CString(s: seq<byte>): (c: seq<byte>)
    ensures c <= s && NUL !in c
    ensures |c| < |s| ==> s[|c|] == NUL
  {
    if s == [] || s[0] == NUL then [] else [s[0]] + CString(s[1..])
  }

  lemma {:induction false} CStringOfNulFree(s: seq<byte>)
    requires NUL !in s
    ensures CString(s) == s
  {
    if s != [] {
      assert s[0] in s;
      forall b | b in s[1..] ensures b in s {}
      CStringOfNulFree(s[1..]);
    }
  }
}
