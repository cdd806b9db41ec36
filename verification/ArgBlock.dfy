/**
 * The single allocation in which native_func_bridge passes arguments: room for two words
 * per argument, and behind it the tag string with its NUL.
 */
module ArgBlock {
  import opened Bytes
  import opened ArgFormat

  /** sizeof(void*) * 2 * n + n + 1 */
  function BlockSize(n: nat): nat {
    8 * 2 * n + n + 1
  }

  /** Where the tag string begins. */
  function TagPlace(n: nat): nat {
    8 * 2 * n
  }

  /** The first `k` words of the block. */
  function WordsIn(mem: seq<byte>, k: nat): (ws: seq<Word>)
    requires 8 * k <= |mem|
    ensures |ws| == k && forall j | 0 <= j < k :: ws[j] == WordAt(mem, j)
  {
    if k == 0 then [] else WordsIn(mem, k - 1) + [WordAt(mem, k - 1)]
  }

  /** The bytes `mem` hold the words `ws` and behind them the tags `ts`. */
  ghost predicate Holds(mem: seq<byte>, n: nat, ws: seq<Word>, ts: seq<byte>) {
    && |mem| == BlockSize(n) && |ws| == 2 * n && |ts| == n + 1
    && (forall j {:trigger WordAt(mem, j)} | 0 <= j < 2 * n :: WordAt(mem, j) == ws[j])
    && mem[TagPlace(n)..] == ts
  }

  lemma SetWordHolds(m0: seq<byte>, m1: seq<byte>, n: nat, ws: seq<Word>, ts: seq<byte>, j: nat, w: Word)
    requires Holds(m0, n, ws, ts) && j < 2 * n && |m1| == |m0| && WordAt(m1, j) == w
    requires forall i | 0 <= i < |m0| && !(8 * j <= i < 8 * j + 8) :: m1[i] == m0[i]
    ensures Holds(m1, n, ws[j := w], ts)
  {
    forall i | 0 <= i < 2 * n ensures WordAt(m1, i) == ws[j := w][i] {
      if i != j {
        WordFrame(m0, m1, i);
        assert WordAt(m0, i) == ws[i];
      }
    }
    assert m1[TagPlace(n)..] == m0[TagPlace(n)..];
  }

  lemma SetTagHolds(m0: seq<byte>, n: nat, ws: seq<Word>, ts: seq<byte>, i: nat, t: byte)
    requires Holds(m0, n, ws, ts) && i <= n
    ensures Holds(m0[TagPlace(n) + i := t], n, ws, ts[i := t])
  {
    var m1 := m0[TagPlace(n) + i := t];
    forall j | 0 <= j < 2 * n ensures WordAt(m1, j) == ws[j] {
      WordFrame(m0, m1, j);
      assert WordAt(m0, j) == ws[j];
    }
    assert m1[TagPlace(n)..] == m0[TagPlace(n)..][i := t];
  }

  /** The block. All accesses are inside the allocation, and words and tags never overlap. */
  class Block {
    const n: nat
    const mem: array<byte>
    ghost var words: seq<Word>
    ghost var tags: seq<byte>

    ghost predicate Valid()
      reads this, mem
    {
      Holds(mem[..], n, words, tags)
    }

    /** malloc: the contents are arbitrary. */
    constructor (n: nat)
      ensures Valid() && this.n == n && fresh(mem)
    {
      this.n := n;
      mem := new byte[BlockSize(n)];
      new;
      words, tags := WordsIn(mem[..], 2 * n), mem[TagPlace(n)..];
    }

    /** args[j] = w */
    method SetWord(j: nat, w: Word)
      requires Valid() && j < 2 * n
      modifies this`words, mem
      ensures Valid() && words == old(words)[j := w]
    {
      ghost var m0 := mem[..];
      StoreWord(mem, j, w);
      SetWordHolds(m0, mem[..], n, words, tags, j, w);
      words := words[j := w];
    }

    /** fmt[i] = t */
    method SetTag(i: nat, t: byte)
      requires Valid() && i <= n
      modifies this`tags, mem
      ensures Valid() && tags == old(tags)[i := t]
    {
      ghost var m0 := mem[..];
      mem[TagPlace(n) + i] := t;
      SetTagHolds(m0, n, words, tags, i, t);
      assert mem[..] == m0[TagPlace(n) + i := t];
      tags := tags[i := t];
    }

    method GetWord(j: nat) returns (w: Word)
      requires Valid() && j < 2 * n
      ensures w == words[j]
    {
      w := WordAt(mem[..], j);
    }

    method GetTag(i: nat) returns (t: byte)
      requires Valid() && i <= n
      ensures t == tags[i]
    {
      t := mem[TagPlace(n) + i];
      assert mem[TagPlace(n)..][i] == t;
    }
  }
}
