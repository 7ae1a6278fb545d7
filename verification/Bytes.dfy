/** SRAM as bytes: each word holds four of them, the lowest first. */
module Bytes {
  import opened Regs
  import opened Ring

  type Byte = b: int | 0 <= b < 256

  /** `w` without its `k` lowest bytes. */
  function Above(w: Word, k: nat): Word
    requires k < 4
  {
    if k == 0 then w else Above(w, k - 1) / 256
  }

  function ByteOf(w: Word, k: nat): Byte
    requires k < 4
  {
    Above(w, k) % 256
  }

  function Join(b0: Byte, b1: Byte, b2: Byte, b3: Byte): (w: Word)
    ensures ByteOf(w, 0) == b0 && ByteOf(w, 1) == b1 && ByteOf(w, 2) == b2 && ByteOf(w, 3) == b3
  {
    var w2: Word := b2 + 256 * b3;
    var w1: Word := b1 + 256 * w2;
    var w: Word := b0 + 256 * w1;
    assert Above(w, 1) == w1;
    assert Above(w, 2) == w2;
    assert Above(w, 3) == Above(w, 2) / 256 == b3;
    w
  }

  lemma JoinBytes(w: Word)
    ensures Join(ByteOf(w, 0), ByteOf(w, 1), ByteOf(w, 2), ByteOf(w, 3)) == w
  {
    assert Above(w, 0) == w;
    assert Above(w, 0) == ByteOf(w, 0) + 256 * Above(w, 1);
    assert Above(w, 1) == ByteOf(w, 1) + 256 * Above(w, 2);
    assert Above(w, 2) == ByteOf(w, 2) + 256 * Above(w, 3);
    assert Above(w, 3) == ByteOf(w, 3);
  }

  /** The word with byte `k` replaced. */
  function WithByte(w: Word, k: nat, b: Byte): (r: Word)
    requires k < 4
    ensures ByteOf(r, k) == b
    ensures forall j :: 0 <= j < 4 && j != k ==> ByteOf(r, j) == ByteOf(w, j)
  {
    var b0, b1, b2, b3 := ByteOf(w, 0), ByteOf(w, 1), ByteOf(w, 2), ByteOf(w, 3);
    if k == 0 then Join(b, b1, b2, b3)
    else if k == 1 then Join(b0, b, b2, b3)
    else if k == 2 then Join(b0, b1, b, b3)
    else Join(b0, b1, b2, b)
  }

  function ByteAt(mem: seq<Word>, o: nat): Byte
    requires o < 4 * |mem|
  {
    ByteOf(mem[o / 4], o % 4)
  }

  /** The bytes `bs` stored from byte offset `o` on. */
  function PutBytes(mem: seq<Word>, o: nat, bs: seq<Byte>): (r: seq<Word>)
    requires o + |bs| <= 4 * |mem|
    ensures |r| == |mem|
    decreases |bs|
  {
    if bs == [] then mem
    else PutBytes(mem[o / 4 := WithByte(mem[o / 4], o % 4, bs[0])], o + 1, bs[1..])
  }

  /** A stored byte is read back, and every other byte is as before. */
  lemma {:induction false} PutBytesAt(mem: seq<Word>, o: nat, bs: seq<Byte>, i: nat)
    requires o + |bs| <= 4 * |mem| && i < 4 * |mem|
    ensures ByteAt(PutBytes(mem, o, bs), i) == if o <= i < o + |bs| then bs[i - o] else ByteAt(mem, i)
    decreases |bs|
  {
    hide ByteOf, WithByte;
    if bs == [] {
    } else {
      PutBytesAt(mem[o / 4 := WithByte(mem[o / 4], o % 4, bs[0])], o + 1, bs[1..], i);
    }
  }

  lemma BytesOfWord(mem: seq<Word>, k: nat)
    requires k < |mem|
    ensures ByteAt(mem, 4 * k) == ByteOf(mem[k], 0) && ByteAt(mem, 4 * k + 1) == ByteOf(mem[k], 1)
    ensures ByteAt(mem, 4 * k + 2) == ByteOf(mem[k], 2) && ByteAt(mem, 4 * k + 3) == ByteOf(mem[k], 3)
  {
    hide ByteOf;
  }

  lemma SameBytes(a: seq<Word>, b: seq<Word>)
    requires |a| == |b| && forall i :: 0 <= i < 4 * |a| ==> ByteAt(a, i) == ByteAt(b, i)
    ensures a == b
  {
    hide ByteOf, Join;
    forall k | 0 <= k < |a|
      ensures a[k] == b[k]
    {
      assert ByteAt(a, 4 * k) == ByteAt(b, 4 * k) && ByteAt(a, 4 * k + 1) == ByteAt(b, 4 * k + 1);
      assert ByteAt(a, 4 * k + 2) == ByteAt(b, 4 * k + 2) && ByteAt(a, 4 * k + 3) == ByteAt(b, 4 * k + 3);
      BytesOfWord(a, k);
      BytesOfWord(b, k);
      JoinBytes(a[k]);
      JoinBytes(b[k]);
    }
  }

  function BytesOf(ws: seq<Word>): (bs: seq<Byte>)
    ensures |bs| == 4 * |ws|
    ensures forall i :: 0 <= i < |bs| ==> bs[i] == ByteOf(ws[i / 4], i % 4)
  {
    seq(4 * |ws|, i requires 0 <= i < 4 * |ws| => ByteOf(ws[i / 4], i % 4))
  }

  /** At a word offset, storing the bytes of words is storing the words. */
  lemma WholeWords(mem: seq<Word>, at: nat, ws: seq<Word>)
    requires at + |ws| <= |mem|
    ensures PutBytes(mem, 4 * at, BytesOf(ws)) == Splice(mem, at, ws)
  {
    hide PutBytes, ByteOf;
    var a, b := PutBytes(mem, 4 * at, BytesOf(ws)), Splice(mem, at, ws);
    forall i | 0 <= i < 4 * |mem|
      ensures ByteAt(a, i) == ByteAt(b, i)
    {
      PutBytesAt(mem, 4 * at, BytesOf(ws), i);
      assert b[i / 4] == if at <= i / 4 < at + |ws| then ws[i / 4 - at] else mem[i / 4];
    }
    SameBytes(a, b);
  }

  /** The word starting at byte offset `o`, aligned or not. */
  function WordAt(mem: seq<Word>, o: nat): Word
    requires o + 4 <= 4 * |mem|
  {
    Join(ByteAt(mem, o), ByteAt(mem, o + 1), ByteAt(mem, o + 2), ByteAt(mem, o + 3))
  }

  lemma WordAtAligned(mem: seq<Word>, k: nat)
    requires k < |mem|
    ensures WordAt(mem, 4 * k) == mem[k]
  {
    hide ByteOf, Join;
    BytesOfWord(mem, k);
    JoinBytes(mem[k]);
  }

  /** `n` words from byte offset `o` on. */
  function WordsAt(mem: seq<Word>, o: nat, n: nat): (ws: seq<Word>)
    requires o + 4 * n <= 4 * |mem|
    ensures |ws| == n
  {
    seq(n, i requires 0 <= i < n => WordAt(mem, o + 4 * i))
  }

  lemma WordsAtAligned(mem: seq<Word>, k: nat, n: nat)
    requires k + n <= |mem|
    ensures WordsAt(mem, 4 * k, n) == mem[k..k + n]
  {
    hide WordAt;
    forall i | 0 <= i < n
      ensures WordsAt(mem, 4 * k, n)[i] == mem[k + i]
    {
      WordAtAligned(mem, k + i);
    }
  }

  /** The words a byte block is cut into; a short last one is extended by zeros. */
  function ChunkWords(bs: seq<Byte>): (ws: seq<Word>)
    ensures |ws| == (|bs| + 3) / 4
    decreases |bs|
  {
    if bs == [] then []
    else
      var w := Join(bs[0], if |bs| > 1 then bs[1] else 0, if |bs| > 2 then bs[2] else 0, if |bs| > 3 then bs[3] else 0);
      [w] + ChunkWords(if |bs| > 4 then bs[4..] else [])
  }

  lemma FirstChunk(ws: seq<Word>)
    requires ws != []
    ensures var bs := BytesOf(ws);
            && Join(bs[0], bs[1], bs[2], bs[3]) == ws[0]
            && (if |bs| > 4 then bs[4..] else []) == BytesOf(ws[1..])
  {
    hide ByteOf, Join;
    JoinBytes(ws[0]);
    var bs, rest := BytesOf(ws), BytesOf(ws[1..]);
    forall i | 0 <= i < |rest|
      ensures bs[4 + i] == rest[i]
    {
      assert (4 + i) / 4 == 1 + i / 4 && (4 + i) % 4 == i % 4;
    }
  }

  /** Cutting the bytes of words gives the words back. */
  lemma {:induction false} ChunksOfWords(ws: seq<Word>)
    ensures ChunkWords(BytesOf(ws)) == ws
    decreases |ws|
  {
    hide ByteOf, Join;
    if ws == [] {
    } else {
      FirstChunk(ws);
      ChunksOfWords(ws[1..]);
    }
  }
}
