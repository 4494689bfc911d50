/** A disk of mkfs's size whose sectors below the log are all in use. mkfs does not mark
    the log's own sectors, so balloc hands those out next. */
module FullDisk {
  import opened Blocks
  import opened BlockTree
  import opened Files
  import opened Supply
  import opened Writing
  import opened Budget
  import opened FileSystem
  import opened Options
  import opened Mkfs

  function Empty(): (ip: Inode) { File(0, seq(NADDRS, _ => 0)) }

  /** Byte `i` of bitmap sector `k`: everything in use up to sector 6 * 4096 + 57 * 8 + 3. */
  function BitmapByte(k: nat, i: nat): (x: Byte) {
    if k < 6 || i < 57 then 255 else if i == 57 then 7 else 0
  }

  function SectorAt(s: nat): (b: Block) {
    if s == 2 then InodeSector(Empty())
    else if 28 <= s < 35 then OfBytes(seq(BSIZE, i requires 0 <= i => BitmapByte(s - 28, i)))
    else if s == DIR_SECTOR then DirSector()
    else ZeroBlock()
  }

  function Image(): (fs: Fs)
    ensures Shaped(fs) && DataStart(fs) == 35 && fs.size == SIZE && fs.ninodes == NINODES == |fs.inodes|
  {
    Fs(SIZE, NINODES, seq(SIZE, s requires 0 <= s => SectorAt(s)), seq(NINODES, i requires 0 <= i => InodeAt(Empty(), i)))
  }

  lemma UsedIs(b: nat)
    requires b < SIZE
    ensures Used(Image(), b) <==> b < LOG_START
  {
    var k, r := b / BPB, b % BPB;
    assert BBlock(Image(), b) == 28 + k && k < 7;
    assert Image().blocks[28 + k] == SectorAt(28 + k);
    assert SectorAt(28 + k).bytes[r / 8] == BitmapByte(k, r / 8);
    BitmapBits(r % 8);
    Zeros(r % 8);
  }

  lemma PtrIs(x: Slot)
    requires InRange(Image(), x)
    ensures Ptr(Image(), x) == if x == Root(ROOT, 0) then DIR_SECTOR else 0
  {
    assert Image().inodes[x.ino] == InodeAt(Empty(), x.ino);
    match x
    case Root(_, _) =>
    case Single(i, s, _) => assert Ptr(Image(), Root(i, 10 + s)) == 0;
    case Double(i, _) => assert Ptr(Image(), Root(i, 12)) == 0;
    case Leaf(i, j, _) =>
      assert Ptr(Image(), Root(i, 12)) == 0;
      assert Ptr(Image(), Double(i, j)) == 0;
  }

  lemma ImageConsistent()
    ensures Consistent(Image()) && BelowLog(Image(), LOG_START)
  {
    var fs := Image();
    forall c | 0 <= c < SIZE ensures Used(fs, c) <==> c < LOG_START { UsedIs(c); }
    forall x | InRange(fs, x) ensures Ptr(fs, x) == if x == Root(ROOT, 0) then DIR_SECTOR else 0 { PtrIs(x); }
    forall i | 0 <= i < NINODES ensures Mapped(fs, i) && Synced(fs, i) { InodeOk(i); }
  }

  lemma InodeOk(i: nat)
    requires i < NINODES
    ensures Mapped(Image(), i) && Synced(Image(), i)
  {
    var fs := Image();
    assert fs.inodes[i] == InodeAt(Empty(), i);
    assert fs.blocks[IBlock(i)] == SectorAt(IBlock(i));
    ZeroDinode(i % IPB);
    InodeSectorIs(Empty(), i % IPB);
    PtrIs(SlotOf(i, 0));
  }

  /** balloc returns the first sector of the log ... */
  lemma LogSectorTaken()
    ensures FreeFrom(Image(), 0) == Some(LOG_START)
  {
    hide Image, FreeFrom, Used;
    var r := FreeFrom(Image(), 0);
    UsedIs(LOG_START);
    if r.Some? { UsedIs(r.value); }
  }

  lemma SomeFree()
    ensures |Free(Image(), 0)| >= 4
  {
    hide Image, Used;
    forall c | 0 <= c < SIZE ensures Used(Image(), c) <==> c < LOG_START { UsedIs(c); }
    FreeSkip(Image(), 0, LOG_START);
    assert Free(Image(), LOG_START) == [LOG_START] + Free(Image(), LOG_START + 1);
    assert Free(Image(), LOG_START + 1) == [LOG_START + 1] + Free(Image(), LOG_START + 2);
    assert Free(Image(), LOG_START + 2) == [LOG_START + 2] + Free(Image(), LOG_START + 3);
    assert Free(Image(), LOG_START + 3) == [LOG_START + 3] + Free(Image(), LOG_START + 4);
  }

  /** A chunk at the start of the file takes only direct blocks. */
  lemma OnlyDirect(hi: nat)
    requires 0 < hi <= 4
    ensures var e := EmptyIn(Image(), INO, 0, hi); 0 < |e| <= 4 && ParentsOf(e) == {}
  {
    hide Ptr, EmptyIn, Image;
    var e := EmptyIn(Image(), INO, 0, hi);
    var all := {Root(INO, 0), Root(INO, 1), Root(INO, 2), Root(INO, 3)};
    forall y | y in e ensures y in all {
      EmptyInIff(Image(), INO, 0, hi, y);
      var bn :| 0 <= bn < hi && Through(INO, bn, y);
      assert SlotOf(INO, bn) == Root(INO, bn);
    }
    SubsetSize(e, all);
    var x := SlotOf(INO, 0);
    PtrIs(x);
    assert Through(INO, 0, x);
    EmptyInIff(Image(), INO, 0, hi, x);
  }

  lemma ImageTakesLog(n: nat)
    requires 0 < n <= MAXCHUNK
    ensures Supplied(Image(), INO, 0, n) && !TooBig(Image(), INO, 0, n) && !ClearOfLog(Image(), INO, 0, n, LOG_START)
  {
    hide Ptr, EmptyIn, Free, Used, Image;
    var hi := EndBlock(0, n);
    OnlyDirect(hi);
    SomeFree();
    FreeExact(Image(), 0);
    var m := |EmptyIn(Image(), INO, 0, hi)|;
    UsedIs(Free(Image(), 0)[m - 1]);
    FewBitmaps(m);
  }

  lemma FewBitmaps(m: nat)
    requires m <= |Free(Image(), 0)|
    ensures BitmapCount(Image(), m) <= 1
  {
    hide Free, Used, Image;
    FreeExact(Image(), 0);
    var s := Free(Image(), 0)[..m];
    forall i | 0 <= i < m ensures BBlock(Image(), s[i]) == 34 { UsedIs(s[i]); BitmapOf(s[i]); }
    assert Bitmaps(Image(), s) <= {34};
    SubsetSize(Bitmaps(Image(), s), {34});
  }

  lemma BitmapOf(b: nat)
    requires LOG_START <= b < SIZE
    ensures BBlock(Image(), b) == 34
  {
  }

  /** ... and every chunk written to the file goes into the log's sectors. */
  method LogOverwritten(chunk: seq<Byte>) returns (r: WriteResult)
    requires 0 < |chunk| <= MAXCHUNK
    ensures r.Overwrote?
  {
    hide Consistent, Supplied, TooBig, BelowLog, Owned, ClearOfLog;
    var image := Image();
    ImageConsistent();
    ImageTakesLog(|chunk|);
    assert image.inodes[INO] == InodeAt(Empty(), INO);
    var f := new FileSystem(SIZE, NINODES, LOG_START, image.blocks, image.inodes);
    ghost var t;
    r, t := f.WriteChunk(INO, 0, chunk, |chunk|);
  }
}
