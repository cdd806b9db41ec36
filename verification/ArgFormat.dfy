/** The tag string and the machine words in which arguments cross between C and Go. */
module ArgFormat {
  import opened Bytes

  const AF_NONE: byte := 0x6E     // 'n'
  const AF_BOOL: byte := 0x62     // 'b'
  const AF_INT: byte := 0x69      // 'i'
  const AF_DOUBLE: byte := 0x64   // 'd'
  const AF_ZSTRING: byte := 0x73  // 's'
  const AF_LSTRING: byte := 0x53  // 'S'
  const AF_BUFFER: byte := 0x42   // 'B'
  const AF_JARRAY: byte := 0x61   // 'a'
  const AF_JOBJECT: byte := 0x6F  // 'o'
  const AF_ECMAFUNC: byte := 0x46 // 'F'
  const AF_ERROR: byte := 0x45    // 'E'
  const AF_MOBJECT: byte := 0x4F  // 'O'

  // ---- words in memory, least significant byte first ----

  function Power256(k: nat): (p: nat)
    ensures p >= 1
  {
    if k == 0 then 1 else 256 * Power256(k - 1)
  }

  function ToBytes(w: nat, k: nat): (b: seq<byte>)
    ensures |b| == k
  {
    if k == 0 then [] else [w % 256] + ToBytes(w / 256, k - 1)
  }

  function FromBytes(b: seq<byte>): (w: nat)
    ensures w < Power256(|b|)
  {
    if b == [] then 0 else b[0] + 256 * FromBytes(b[1..])
  }

  lemma {:induction false} BytesRoundTrip(w: nat, k: nat)
    requires w < Power256(k)
    ensures FromBytes(ToBytes(w, k)) == w
  {
    if k > 0 {
      BytesRoundTrip(w / 256, k - 1);
      assert ToBytes(w, k)[1..] == ToBytes(w / 256, k - 1);
    }
  }

  lemma Power256Of8()
    ensures Power256(8) == TWO_64
  {
    assert Power256(4) == 0x1_0000_0000;
    assert Power256(6) == 0x1_0000_0000_0000;
  }

  /** The word at word index `j` of the memory block. */
  function WordAt(mem: seq<byte>, j: nat): (w: Word)
    requires 8 * j + 8 <= |mem|
  {
    Power256Of8();
    FromBytes(mem[8 * j..8 * j + 8])
  }

  method StoreWord(mem: array<byte>, j: nat, w: Word)
    requires 8 * j + 8 <= mem.Length
    modifies mem
    ensures WordAt(mem[..], j) == w
    ensures forall i | 0 <= i < mem.Length && !(8 * j <= i < 8 * j + 8) :: mem[i] == old(mem[i])
  {
    var b := ToBytes(w, 8);
    var i: nat := 0;
    while i < 8
      invariant i <= 8
      invariant forall k | 8 * j <= k < 8 * j + i :: mem[k] == b[k - 8 * j]
      invariant forall k | 0 <= k < mem.Length && !(8 * j <= k < 8 * j + i) :: mem[k] == old(mem[k])
    {
      mem[8 * j + i] := b[i];
      i := i + 1;
    }
    assert mem[..][8 * j..8 * j + 8] == b;
    Power256Of8();
    BytesRoundTrip(w, 8);
  }

  /** Storing one word leaves every other word alone. */
  lemma WordFrame(before: seq<byte>, after: seq<byte>, j: nat)
    requires |before| == |after| && 8 * j + 8 <= |before|
    requires forall i | 8 * j <= i < 8 * j + 8 :: before[i] == after[i]
    ensures WordAt(after, j) == WordAt(before, j)
  {
    assert after[8 * j..8 * j + 8] == before[8 * j..8 * j + 8];
  }
}
