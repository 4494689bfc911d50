/** A disk of mkfs's size on which a chunk of filewrite does not fit in the log. The file
    ends in the middle of block 264, and the five free sectors straddle the end of the
    first bitmap sector. */
module Straddle {
  import opened Blocks
  import opened BlockTree
  import opened Files
  import opened Supply
  import opened Writing
  import opened Budget
  import opened FileSystem
  import opened Mkfs

  const END: nat := 264 * 512 + 256

  /** The pointers of the file: sectors 100 to 111 from the inode, and 200 on from the
      two singly-indirect blocks 110 and 111. */
  function Long(): (ip: Inode) { File(END, seq(NADDRS, k => if k < 12 then 100 + k else 0)) }

  function Table(s: nat): (ws: seq<Word>)
    requires s < 2
    ensures |ws| == PTRS_PER_BLOCK
  {
    seq(PTRS_PER_BLOCK, e requires 0 <= e < PTRS_PER_BLOCK => if s == 1 && e == 127 then 0 else 200 + 128 * s + e)
  }

  /** Byte `i` of bitmap sector `k`: everything in use but sectors 4094 to 4098. */
  function BitmapByte(k: nat, i: nat): (x: Byte) {
    if k == 0 && i == 511 then 63 else if k == 1 && i == 0 then 248 else 255
  }

  function BitmapSector(k: nat): (b: Block) {
    OfBytes(seq(BSIZE, i requires 0 <= i => BitmapByte(k, i)))
  }

  function SectorAt(s: nat): (b: Block) {
    if s == 2 then InodeSector(Long())
    else if 28 <= s < 35 then BitmapSector(s - 28)
    else if s == DIR_SECTOR then DirSector()
    else if s == 110 then OfWords(Table(0))
    else if s == 111 then OfWords(Table(1))
    else ZeroBlock()
  }

  function Image(): (fs: Fs)
    ensures Shaped(fs) && DataStart(fs) == 35 && fs.size == SIZE && fs.ninodes == NINODES == |fs.inodes|
  {
    Fs(SIZE, NINODES, seq(SIZE, s requires 0 <= s => SectorAt(s)), seq(NINODES, i requires 0 <= i => InodeAt(Long(), i)))
  }

  // ------------------------------------------------------------------- bitmap

  lemma UsedIs(b: nat)
    requires b < SIZE
    ensures Used(Image(), b) <==> !(4094 <= b <= 4098)
  {
    var k, r := b / BPB, b % BPB;
    assert BBlock(Image(), b) == 28 + k && k < 7;
    assert Image().blocks[28 + k] == BitmapSector(k);
    assert BitmapSector(k).bytes[r / 8] == BitmapByte(k, r / 8);
    BitmapBits(r % 8);
  }

  lemma FreeIs()
    ensures Free(Image(), 0) == [4094, 4095, 4096, 4097, 4098]
  {
    var fs := Image();
    forall c | 0 <= c < SIZE ensures Used(fs, c) <==> !(4094 <= c <= 4098) { UsedIs(c); }
    FreeSkip(fs, 0, 4094);
    FreeSkip(fs, 4099, SIZE);
    assert Free(fs, 4098) == [4098] + Free(fs, 4099);
    assert Free(fs, 4097) == [4097] + Free(fs, 4098);
    assert Free(fs, 4096) == [4096] + Free(fs, 4097);
    assert Free(fs, 4095) == [4095] + Free(fs, 4096);
    assert Free(fs, 4094) == [4094] + Free(fs, 4095);
  }

  // ----------------------------------------------------------------- pointers

  /** What slot `x` holds. */
  function PtrAt(x: Slot): (p: nat) {
    if x == Root(ROOT, 0) then DIR_SECTOR
    else if x.ino != INO then 0
    else if x.Root? && x.k < 12 then 100 + x.k
    else if x.Single? && !(x.s == 1 && x.e == 127) then 200 + 128 * x.s + x.e
    else 0
  }

  lemma RootIs(i: nat, k: nat)
    requires i < NINODES && k < NADDRS
    ensures Ptr(Image(), Root(i, k)) == PtrAt(Root(i, k))
  {
    assert Image().inodes[i] == InodeAt(Long(), i);
  }

  lemma PtrIs(x: Slot)
    requires InRange(Image(), x)
    ensures Ptr(Image(), x) == PtrAt(x)
  {
    hide SectorAt, InodeAt;
    match x
    case Root(i, k) => RootIs(i, k);
    case Single(i, s, e) =>
      RootIs(i, 10 + s);
      if i == INO { TableIs(s); }
    case Double(i, _) => RootIs(i, 12);
    case Leaf(i, j, _) =>
      RootIs(i, 12);
      assert Ptr(Image(), Double(i, j)) == 0;
  }

  lemma TableIs(s: nat)
    requires s < 2
    ensures Image().blocks[110 + s].words == Table(s)
  {
  }

  lemma PtrsApart(x: Slot, y: Slot)
    requires InRange(Image(), x) && InRange(Image(), y) && x != y && PtrAt(x) != 0
    ensures PtrAt(x) != PtrAt(y)
  {
  }

  lemma ImageOwned()
    ensures Owned(Image())
  {
    var fs := Image();
    hide Used, Ptr, Image;
    forall c | 0 <= c < SIZE ensures Used(fs, c) <==> !(4094 <= c <= 4098) { UsedIs(c); }
    forall x | InRange(fs, x) && Ptr(fs, x) != 0 ensures Marked(fs, Ptr(fs, x)) { PtrIs(x); }
    forall x, y | InRange(fs, x) && InRange(fs, y) ensures Apart(fs, x, y) {
      PtrIs(x);
      PtrIs(y);
      if x != y && PtrAt(x) != 0 { PtrsApart(x, y); }
    }
  }

  // ------------------------------------------------------------------- inodes

  lemma ImageSynced(i: nat)
    requires i < NINODES
    ensures Synced(Image(), i)
  {
    assert Image().inodes[i] == InodeAt(Long(), i);
    assert Image().blocks[IBlock(i)] == SectorAt(IBlock(i));
    ZeroDinode(i % IPB);
    InodeSectorIs(Long(), i % IPB);
  }

  lemma ImageMapped(i: nat)
    requires i < NINODES
    ensures Mapped(Image(), i)
  {
    assert Image().inodes[i] == InodeAt(Long(), i);
    forall bn | 0 <= bn < MAXFILE && bn * BSIZE < Image().inodes[i].size ensures MapOf(Image(), i, bn) != 0 {
      PtrIs(SlotOf(i, bn));
    }
  }

  lemma ImageConsistent()
    ensures Consistent(Image()) && BelowLog(Image(), LOG_START)
  {
    ImageOwned();
    forall i | 0 <= i < NINODES ensures Mapped(Image(), i) && Synced(Image(), i) {
      ImageMapped(i);
      ImageSynced(i);
    }
    forall y | InRange(Image(), y) ensures Ptr(Image(), y) < LOG_START { PtrIs(y); }
  }

  // -------------------------------------------------------------- the failure

  lemma ImageTooBig()
    ensures Supplied(Image(), INO, END, MAXCHUNK) && TooBig(Image(), INO, END, MAXCHUNK)
  {
    hide Ptr, Free, Owned, Used, TooBig, Supplied;
    ImageConsistent();
    FreeIs();
    PtrIs(Single(INO, 1, 127));
    PtrIs(Root(INO, 12));
    assert Image().inodes[INO] == InodeAt(Long(), INO);
    StraddlePanics(Image(), INO, END);
  }

  /** There are sectors for a full chunk at the end of the file, but log_write
      panics. */
  method ChunkTooBig(chunk: seq<Byte>) returns (r: WriteResult)
    requires |chunk| == MAXCHUNK
    ensures r.Panicked? && Supplied(Image(), INO, END, MAXCHUNK)
  {
    hide Consistent, Supplied, TooBig, BelowLog, Owned;
    var image := Image();
    ImageConsistent();
    ImageTooBig();
    assert image.inodes[INO] == InodeAt(Long(), INO);
    var f := new FileSystem(SIZE, NINODES, LOG_START, image.blocks, image.inodes);
    ghost var t;
    r, t := f.WriteChunk(INO, END, chunk, MAXCHUNK);
  }
}
