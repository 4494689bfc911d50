/** Disk sectors. A sector is 512 bytes, which the kernel also reads as 128
    little-endian 32-bit words (the log header, inodes and indirect blocks are
    all accessed through word pointers into a buffer). A `Block` carries both views
    of its memory; `OfWords` and `OfBytes` are the stores through one view, and both
    keep the other in step. */
module Blocks {

  const BSIZE: nat := 512
  const PTRS_PER_BLOCK: nat := 128

  type Byte = x: int | 0 <= x < 256
  type Word = x: int | 0 <= x < 0x1_0000_0000

  function Digit(w: Word, i: nat): (b: Byte)
    requires i < 4
  {
    if i == 0 then w % 0x100
    else if i == 1 then w / 0x100 % 0x100
    else if i == 2 then w / 0x1_0000 % 0x100
    else w / 0x100_0000
  }

  function LittleEndian(b0: Byte, b1: Byte, b2: Byte, b3: Byte): (w: Word)
    ensures Digit(w, 0) == b0 && Digit(w, 1) == b1 && Digit(w, 2) == b2 && Digit(w, 3) == b3
  {
    var w := b0 as int + 0x100 * b1 as int + 0x1_0000 * b2 as int + 0x100_0000 * b3 as int;
    assert w / 0x100 == b1 as int + 0x100 * b2 as int + 0x1_0000 * b3 as int;
    assert w / 0x1_0000 == b2 as int + 0x100 * b3 as int;
    w
  }

  lemma LittleEndianDigits(w: Word)
    ensures LittleEndian(Digit(w, 0), Digit(w, 1), Digit(w, 2), Digit(w, 3)) == w
  {
    assert w / 0x1_0000 == w / 0x100 / 0x100;
    assert w / 0x100_0000 == w / 0x1_0000 / 0x100;
  }

  function Digits(ws: seq<Word>): (r: seq<Byte>)
    ensures |r| == 4 * |ws|
  {
    if ws == [] then []
    else [Digit(ws[0], 0), Digit(ws[0], 1), Digit(ws[0], 2), Digit(ws[0], 3)] + Digits(ws[1..])
  }

  function Words(r: seq<Byte>): (ws: seq<Word>)
    requires |r| % 4 == 0
    ensures 4 * |ws| == |r|
  {
    if r == [] then []
    else [LittleEndian(r[0], r[1], r[2], r[3])] + Words(r[4..])
  }

  lemma {:induction false} DigitsWords(r: seq<Byte>)
    requires |r| % 4 == 0
    ensures Digits(Words(r)) == r
  {
    if r != [] {
      DigitsWords(r[4..]);
      assert Words(r)[1..] == Words(r[4..]);
      assert r[..4] == [r[0], r[1], r[2], r[3]];
    }
  }

  lemma {:induction false} WordsDigits(ws: seq<Word>)
    ensures Words(Digits(ws)) == ws
  {
    if ws != [] {
      WordsDigits(ws[1..]);
      LittleEndianDigits(ws[0]);
      assert Digits(ws)[4..] == Digits(ws[1..]);
    }
  }

  datatype Sector = Sector(words: seq<Word>, bytes: seq<Byte>)

  type Block = b: Sector | |b.words| == PTRS_PER_BLOCK && |b.bytes| == BSIZE
    witness Sector(seq(PTRS_PER_BLOCK, _ => 0), seq(BSIZE, _ => 0))

  /** The two views show the same memory. */
  ghost predicate Coherent(b: Block) {
    b.bytes == Digits(b.words)
  }

  /** What a store through either view leaves. */
  type Stored = b: Block | Coherent(b)
    witness Sector(seq(PTRS_PER_BLOCK, _ => 0), Digits(seq(PTRS_PER_BLOCK, _ => 0)))

  /** The views of every sector of a disk are in step. */
  ghost predicate Whole(d: seq<Block>) {
    forall i {:trigger Coherent(d[i])} :: 0 <= i < |d| ==> Coherent(d[i])
  }

  /** A coherent sector is determined by either view. */
  lemma BlockDetermined(a: Block, b: Block)
    requires Coherent(a) && Coherent(b)
    ensures a == b <==> a.words == b.words
    ensures a == b <==> a.bytes == b.bytes
  {
    WordsDigits(a.words);
    WordsDigits(b.words);
  }

  function OfWords(ws: seq<Word>): (b: Block)
    requires |ws| == PTRS_PER_BLOCK
  {
    Sector(ws, Digits(ws))
  }

  function OfBytes(r: seq<Byte>): (b: Block)
    requires |r| == BSIZE
  {
    Sector(Words(r), r)
  }

  /** A sector of zeroes. */
  function ZeroBlock(): (b: Block)
    ensures forall i :: 0 <= i < PTRS_PER_BLOCK ==> b.words[i] == 0
    ensures forall i :: 0 <= i < BSIZE ==> b.bytes[i] == 0
  {
    Sector(seq(PTRS_PER_BLOCK, _ => 0), seq(BSIZE, _ => 0))
  }

  /** Stores through either view leave the views in step. */
  lemma BytesCoherent(r: seq<Byte>)
    requires |r| == BSIZE
    ensures Coherent(OfBytes(r))
  {
    DigitsWords(r);
  }

  lemma {:induction false} ZeroDigits(n: nat)
    ensures Digits(seq(n, _ => 0)) == seq(4 * n, _ => 0)
  {
    if n > 0 {
      ZeroDigits(n - 1);
      var zs: seq<Word> := seq(n, _ => 0);
      assert zs[1..] == seq(n - 1, _ => 0);
    }
  }

  lemma ZeroCoherent()
    ensures Coherent(ZeroBlock())
  {
    ZeroDigits(PTRS_PER_BLOCK);
  }
}
