/** File contents over the block tree of fs.c: what storing into a sector does to
    the bytes of every file, and the on-disk copies of the inodes. */
module Files {
  import opened Blocks
  import opened BlockTree

  // -------------------------------------------------------- on-disk inodes

  /** Inode `k` of an inode sector: 16 words each. */
  function GetDinode(b: Block, k: nat): (ip: Inode)
    requires k < IPB
  {
    Inode(b.words[16 * k], b.words[16 * k + 1], b.words[16 * k + 2], b.words[16 * k + 3..16 * k + 16])
  }

  function PutDinode(b: Block, k: nat, ip: Inode): (r: Block)
    requires k < IPB
  {
    OfWords(b.words[..16 * k] + [ip.meta0, ip.meta1, ip.size] + ip.addrs + b.words[16 * k + 16..])
  }

  /** An inode written to its sector reads back the same, and its neighbours in
      the sector are not disturbed. */
  lemma DinodeRoundTrip(b: Block, k: nat, ip: Inode, j: nat)
    requires k < IPB && j < IPB
    ensures GetDinode(PutDinode(b, k, ip), j) == if j == k then ip else GetDinode(b, j)
  {
    var w, r := b.words, PutDinode(b, k, ip).words;
    assert r[16 * k + 3..16 * k + 16] == ip.addrs;
    if j < k {
      assert r[16 * j + 3..16 * j + 16] == w[16 * j + 3..16 * j + 16];
    } else if j > k {
      assert r[16 * j + 3..16 * j + 16] == w[16 * j + 3..16 * j + 16];
    }
  }

  /** The inode on disk is the one in memory. */
  predicate Synced(fs: Fs, ino: nat)
    requires Shaped(fs) && ino < fs.ninodes
  {
    GetDinode(fs.blocks[IBlock(ino)], ino % IPB) == fs.inodes[ino]
  }

  // ----------------------------------------------------- stores into sectors

  /** Sector `b` is neither an indirect block nor part of the bitmap. */
  ghost predicate Plain(fs: Fs, b: nat)
    requires Shaped(fs)
  {
    && b < fs.size
    && (forall x :: InRange(fs, x) && !IsData(x) ==> Ptr(fs, x) != b || b == 0)
    && (forall c :: 0 <= c < fs.size ==> BBlock(fs, c) != b)
  }

  lemma {:induction false} SetBlockPtr(fs: Fs, b: nat, data: Block, y: Slot)
    requires Shaped(fs) && Plain(fs, b) && InRange(fs, y)
    ensures Ptr(SetBlock(fs, b, data), y) == Ptr(fs, y)
    decreases Level(y)
  {
    if !y.Root? {
      SetBlockPtr(fs, b, data, Parent(y));
      assert InRange(fs, Parent(y)) && !IsData(Parent(y));
    }
  }

  lemma SetBlockOwned(fs: Fs, b: nat, data: Block)
    requires Owned(fs) && Plain(fs, b)
    ensures Owned(SetBlock(fs, b, data))
    ensures forall y :: InRange(fs, y) ==> Ptr(SetBlock(fs, b, data), y) == Ptr(fs, y)
  {
    var r := SetBlock(fs, b, data);
    forall c | 0 <= c < fs.size ensures Used(r, c) == Used(fs, c) { assert BBlock(fs, c) != b; }
    forall y | InRange(fs, y) ensures Ptr(r, y) == Ptr(fs, y) { SetBlockPtr(fs, b, data, y); }
    forall y | InRange(r, y) && Ptr(r, y) != 0 ensures Marked(r, Ptr(r, y)) {
      assert InRange(fs, y) && Marked(fs, Ptr(fs, y));
    }
    StillApart(fs, r);
  }

  lemma SetBlockMetadata(fs: Fs, b: nat, data: Block, ino: nat)
    requires Shaped(fs) && DataStart(fs) <= b < fs.size
    ensures SameMetadata(fs, SetBlock(fs, b, data), ino)
  {
  }

  lemma DataIsPlain(fs: Fs, x: Slot)
    requires Owned(fs) && InRange(fs, x) && IsData(x) && Ptr(fs, x) != 0
    ensures Plain(fs, Ptr(fs, x))
  {
    assert Marked(fs, Ptr(fs, x));
    forall y | InRange(fs, y) && !IsData(y) ensures Ptr(fs, y) != Ptr(fs, x) { assert Apart(fs, x, y); }
  }

  lemma InodeSectorIsPlain(fs: Fs, ino: nat)
    requires Owned(fs) && ino < fs.ninodes
    ensures Plain(fs, IBlock(ino))
  {
    forall x | InRange(fs, x) && !IsData(x) ensures Ptr(fs, x) != IBlock(ino) {
      if Ptr(fs, x) != 0 { assert Marked(fs, Ptr(fs, x)); }
    }
  }

  // ------------------------------------------------------------------- bytes

  /** Byte `o` of file `ino`. */
  function ByteAt(fs: Fs, ino: nat, o: nat): (b: Byte)
    requires ino < |fs.inodes|
  {
    if o / BSIZE < MAXFILE && MapOf(fs, ino, o / BSIZE) < |fs.blocks|
    then fs.blocks[MapOf(fs, ino, o / BSIZE)].bytes[o % BSIZE]
    else 0
  }

  /** Every block below the size is mapped. */
  ghost predicate Mapped(fs: Fs, ino: nat)
    requires ino < |fs.inodes|
  {
    && fs.inodes[ino].size <= MAXFILE * BSIZE
    && forall bn :: 0 <= bn < MAXFILE && bn * BSIZE < fs.inodes[ino].size ==> MapOf(fs, ino, bn) != 0
  }

  function Content(fs: Fs, ino: nat): (s: seq<Byte>)
    requires ino < |fs.inodes|
  {
    seq(fs.inodes[ino].size, o requires 0 <= o => ByteAt(fs, ino, o))
  }

  /** memmove of `src` to offset `k` of a sector. */
  function Splice(d: seq<Byte>, k: nat, src: seq<Byte>): (r: seq<Byte>)
    requires k + |src| <= |d|
    ensures |r| == |d|
    ensures forall i {:trigger r[i]} :: 0 <= i < |d| ==> r[i] == if k <= i < k + |src| then src[i - k] else d[i]
  {
    d[..k] + src + d[k + |src|..]
  }

  /** From `fs` to `w`, bytes `src` were stored at offset `off` of file `ino`: no
      mapping was lost, and no other byte of any file changed. */
  ghost predicate Wrote(fs: Fs, w: Fs, ino: nat, off: nat, src: seq<Byte>) {
    && Owned(fs) && Owned(w) && ino < fs.ninodes
    && w.size == fs.size && w.ninodes == fs.ninodes
    && SameMetadata(fs, w, ino)
    && MapKept(fs, w)
    && (forall o :: off <= o < off + |src| ==> InFile(w, ino, o))
    && BytesWrote(fs, w, ino, off, src)
  }

  predicate InFile(fs: Fs, ino: nat, o: nat)
    requires ino < |fs.inodes|
  {
    o / BSIZE < MAXFILE && MapOf(fs, ino, o / BSIZE) != 0
  }

  ghost predicate MapKept(fs: Fs, w: Fs)
    requires |fs.inodes| == |w.inodes|
  {
    forall i, bn :: 0 <= i < |fs.inodes| && 0 <= bn < MAXFILE && MapOf(fs, i, bn) != 0 ==> MapOf(w, i, bn) == MapOf(fs, i, bn)
  }

  ghost predicate BytesWrote(fs: Fs, w: Fs, ino: nat, off: nat, src: seq<Byte>)
    requires |fs.inodes| == |w.inodes|
  {
    && (forall o :: off <= o < off + |src| && ino < |w.inodes| ==> ByteAt(w, ino, o) == src[o - off])
    && (forall i, o :: 0 <= i < |fs.inodes| && 0 <= o && InFile(fs, i, o) && !(i == ino && off <= o < off + |src|) ==>
          ByteAt(w, i, o) == ByteAt(fs, i, o))
  }

  /** bmap changes no byte of any file. */
  lemma ExtendsBytes(fs: Fs, r: Fs, x: Slot, i: nat, o: nat)
    requires Extends(fs, r, x) && i < fs.ninodes && InFile(fs, i, o)
    ensures MapOf(r, i, o / BSIZE) == MapOf(fs, i, o / BSIZE)
    ensures ByteAt(r, i, o) == ByteAt(fs, i, o)
  {
    var y := SlotOf(i, o / BSIZE);
    assert InRange(fs, y) && IsData(y);
    assert Marked(fs, Ptr(fs, y));
  }

  /** The sector store of one iteration of writei. */
  function StoreBytes(fs: Fs, ino: nat, off: nat, src: seq<Byte>): (r: Fs)
    requires Owned(fs) && ino < fs.ninodes && off % BSIZE + |src| <= BSIZE && InFile(fs, ino, off)
    requires MapOf(fs, ino, off / BSIZE) < fs.size
  {
    var p := MapOf(fs, ino, off / BSIZE);
    SetBlock(fs, p, OfBytes(Splice(fs.blocks[p].bytes, off % BSIZE, src)))
  }

  lemma StoreBytesOwned(fs: Fs, ino: nat, off: nat, src: seq<Byte>)
    requires Owned(fs) && ino < fs.ninodes && off % BSIZE + |src| <= BSIZE && InFile(fs, ino, off)
    requires MapOf(fs, ino, off / BSIZE) < fs.size
    ensures Owned(StoreBytes(fs, ino, off, src))
    ensures forall y :: InRange(fs, y) ==> Ptr(StoreBytes(fs, ino, off, src), y) == Ptr(fs, y)
    ensures SameMetadata(fs, StoreBytes(fs, ino, off, src), ino)
  {
    var x := SlotOf(ino, off / BSIZE);
    assert InRange(fs, x);
    assert Marked(fs, Ptr(fs, x));
    DataIsPlain(fs, x);
    var p := MapOf(fs, ino, off / BSIZE);
    SetBlockOwned(fs, p, OfBytes(Splice(fs.blocks[p].bytes, off % BSIZE, src)));
    SetBlockMetadata(fs, p, OfBytes(Splice(fs.blocks[p].bytes, off % BSIZE, src)), ino);
  }

  lemma StoreBytesAt(fs: Fs, ino: nat, off: nat, src: seq<Byte>, i: nat, o: nat)
    requires Owned(fs) && ino < fs.ninodes && off % BSIZE + |src| <= BSIZE && InFile(fs, ino, off)
    requires MapOf(fs, ino, off / BSIZE) < fs.size
    requires i < fs.ninodes && InFile(fs, i, o)
    ensures ByteAt(StoreBytes(fs, ino, off, src), i, o)
         == if i == ino && off <= o < off + |src| then src[o - off] else ByteAt(fs, i, o)
  {
    var r := StoreBytes(fs, ino, off, src);
    assert MapOf(r, i, o / BSIZE) == MapOf(fs, i, o / BSIZE) < fs.size by {
      StoreBytesOwned(fs, ino, off, src);
      assert InRange(fs, SlotOf(i, o / BSIZE));
      assert Marked(fs, MapOf(fs, i, o / BSIZE));
    }
    SameSector(fs, ino, off, |src|, i, o);
  }

  /** Two bytes are in one sector exactly if they are in one block of one file. */
  lemma SameSector(fs: Fs, ino: nat, off: nat, n: nat, i: nat, o: nat)
    requires Owned(fs) && ino < fs.ninodes && i < fs.ninodes && InFile(fs, ino, off) && InFile(fs, i, o)
    requires off % BSIZE + n <= BSIZE
    ensures i == ino && off <= o < off + n ==> o / BSIZE == off / BSIZE && o % BSIZE == off % BSIZE + (o - off)
    ensures MapOf(fs, i, o / BSIZE) == MapOf(fs, ino, off / BSIZE) ==> i == ino && o / BSIZE == off / BSIZE
  {
    if MapOf(fs, i, o / BSIZE) == MapOf(fs, ino, off / BSIZE) {
      MapInjective(fs, i, o / BSIZE, ino, off / BSIZE);
    }
  }

  /** One iteration of writei: bmap, then the store. */
  lemma WroteBlock(fs: Fs, r: Fs, ino: nat, off: nat, src: seq<Byte>)
    requires ino < fs.ninodes && off % BSIZE + |src| <= BSIZE && off / BSIZE < MAXFILE
    requires Extends(fs, r, SlotOf(ino, off / BSIZE))
    ensures MapOf(r, ino, off / BSIZE) < fs.size
    ensures Wrote(fs, StoreBytes(r, ino, off, src), ino, off, src)
  {
    hide Ptr, Used, BitAt;
    var x := SlotOf(ino, off / BSIZE);
    assert Marked(r, Ptr(r, x));
    StoreBytesOwned(r, ino, off, src);
    var w := StoreBytes(r, ino, off, src);
    forall i, bn | 0 <= i < |fs.inodes| && 0 <= bn < MAXFILE && MapOf(fs, i, bn) != 0
      ensures MapOf(w, i, bn) == MapOf(fs, i, bn)
    {
      assert InRange(fs, SlotOf(i, bn)) && InRange(r, SlotOf(i, bn));
    }
    forall o | off <= o < off + |src| ensures InFile(w, ino, o) && ByteAt(w, ino, o) == src[o - off] {
      assert o / BSIZE == off / BSIZE;
      assert InRange(r, SlotOf(ino, o / BSIZE));
      StoreBytesAt(r, ino, off, src, ino, o);
    }
    forall i, o | 0 <= i < |fs.inodes| && 0 <= o && InFile(fs, i, o) && !(i == ino && off <= o < off + |src|)
      ensures ByteAt(w, i, o) == ByteAt(fs, i, o)
    {
      ExtendsBytes(fs, r, x, i, o);
      StoreBytesAt(r, ino, off, src, i, o);
    }
  }

  /** Consecutive stores compose. */
  lemma WroteMore(fs: Fs, v: Fs, w: Fs, ino: nat, off: nat, s: seq<Byte>, t: seq<Byte>)
    requires Wrote(fs, v, ino, off, s) && Wrote(v, w, ino, off + |s|, t)
    ensures Wrote(fs, w, ino, off, s + t)
  {
    forall i, o | 0 <= i < |fs.inodes| && 0 <= o && InFile(fs, i, o) ensures InFile(v, i, o) {
      assert MapOf(v, i, o / BSIZE) == MapOf(fs, i, o / BSIZE);
    }
    forall o | off <= o < off + |s + t|
      ensures InFile(w, ino, o) && ByteAt(w, ino, o) == (s + t)[o - off]
    {
      if o < off + |s| {
        assert InFile(v, ino, o);
        assert MapOf(w, ino, o / BSIZE) == MapOf(v, ino, o / BSIZE);
      }
    }
    assert MapKept(fs, w);
  }

  // ---------------------------------------------------- size and inode update

  function SetSize(fs: Fs, ino: nat, n: Word): (r: Fs)
    requires ino < |fs.inodes|
  {
    SetInode(fs, ino, Inode(fs.inodes[ino].meta0, fs.inodes[ino].meta1, n, fs.inodes[ino].addrs))
  }

  function Iupdate(fs: Fs, ino: nat): (r: Fs)
    requires Shaped(fs) && ino < fs.ninodes
  {
    SetBlock(fs, IBlock(ino), PutDinode(fs.blocks[IBlock(ino)], ino % IPB, fs.inodes[ino]))
  }

  lemma {:induction false} SetSizePtr(fs: Fs, ino: nat, n: Word, y: Slot)
    requires ino < |fs.inodes| && InRange(fs, y)
    ensures Ptr(SetSize(fs, ino, n), y) == Ptr(fs, y)
    decreases Level(y)
  {
    if !y.Root? { SetSizePtr(fs, ino, n, Parent(y)); }
  }

  /** Setting the size and writing the inode back leave all pointers alone. */
  lemma ResizeOwned(fs: Fs, ino: nat, n: Word)
    requires Owned(fs) && ino < fs.ninodes
    ensures Owned(SetSize(fs, ino, n)) && Owned(Iupdate(SetSize(fs, ino, n), ino))
    ensures forall y :: InRange(fs, y) ==> Ptr(Iupdate(SetSize(fs, ino, n), ino), y) == Ptr(fs, y)
  {
    var r := SetSize(fs, ino, n);
    forall y | InRange(fs, y) ensures Ptr(r, y) == Ptr(fs, y) { SetSizePtr(fs, ino, n, y); }
    forall c | 0 <= c < fs.size ensures Used(r, c) == Used(fs, c) { }
    forall y | InRange(r, y) && Ptr(r, y) != 0 ensures Marked(r, Ptr(r, y)) {
      assert InRange(fs, y) && Marked(fs, Ptr(fs, y));
    }
    StillApart(fs, r);
    InodeSectorIsPlain(r, ino);
    SetBlockOwned(r, IBlock(ino), PutDinode(r.blocks[IBlock(ino)], ino % IPB, r.inodes[ino]));
  }

  lemma ResizeBytes(fs: Fs, ino: nat, n: Word, i: nat, o: nat)
    requires Owned(fs) && ino < fs.ninodes && i < fs.ninodes && InFile(fs, i, o)
    ensures InFile(Iupdate(SetSize(fs, ino, n), ino), i, o)
    ensures ByteAt(Iupdate(SetSize(fs, ino, n), ino), i, o) == ByteAt(fs, i, o)
  {
    ResizeOwned(fs, ino, n);
    var y := SlotOf(i, o / BSIZE);
    assert InRange(fs, y);
    assert Marked(fs, Ptr(fs, y));
  }

  lemma ResizeSynced(fs: Fs, ino: nat, n: Word, i: nat)
    requires Shaped(fs) && ino < fs.ninodes && i < fs.ninodes
    requires i != ino ==> Synced(fs, i)
    ensures Synced(Iupdate(SetSize(fs, ino, n), ino), i)
  {
    var r := SetSize(fs, ino, n);
    if IBlock(i) == IBlock(ino) {
      DinodeRoundTrip(r.blocks[IBlock(ino)], ino % IPB, r.inodes[ino], i % IPB);
    }
  }

  // ------------------------------------------------------------ writei, whole

  /** The invariant of the file system between transactions. */
  ghost predicate Consistent(fs: Fs) {
    && Owned(fs)
    && forall i :: 0 <= i < fs.ninodes ==> Mapped(fs, i) && Synced(fs, i)
  }

  /** A file of contents `c` with `src` written at offset `off`. */
  function Overwrite(c: seq<Byte>, off: nat, src: seq<Byte>): (r: seq<Byte>)
    requires off <= |c|
  {
    c[..off] + src + if off + |src| < |c| then c[off + |src|..] else []
  }

  /** The end of writei: the size grows if the write went past it. */
  function Finish(w: Fs, ino: nat, off: nat, n: nat): (r: Fs)
    requires Shaped(w) && ino < w.ninodes && off + n <= MAXFILE * BSIZE
  {
    if n > 0 && off + n > w.inodes[ino].size then Iupdate(SetSize(w, ino, off + n), ino) else w
  }

  /** All stores of a writei call are done: the file's blocks are in place, and
      the inode on disk is current unless the size still has to grow. */
  ghost predicate AllStored(fs: Fs, w: Fs, ino: nat, off: nat, src: seq<Byte>) {
    && Consistent(fs) && Wrote(fs, w, ino, off, src)
    && off <= fs.inodes[ino].size && off + |src| <= MAXFILE * BSIZE
    && (w.inodes[ino] == fs.inodes[ino] || (|src| > 0 && off + |src| > fs.inodes[ino].size))
  }

  /** A byte of the written range lies in the file and is the source's byte. */
  lemma NewByte(fs: Fs, w: Fs, ino: nat, off: nat, src: seq<Byte>, o: nat)
    requires AllStored(fs, w, ino, off, src) && off <= o < off + |src|
    ensures InFile(w, ino, o) && ByteAt(w, ino, o) == src[o - off]
  {
  }

  /** A byte outside the written range is the one the file had. */
  lemma KeptByte(fs: Fs, w: Fs, ino: nat, off: nat, src: seq<Byte>, i: nat, o: nat)
    requires AllStored(fs, w, ino, off, src) && i < fs.ninodes && o < fs.inodes[i].size
    requires !(i == ino && off <= o < off + |src|)
    ensures InFile(w, i, o) && InFile(fs, i, o) && ByteAt(w, i, o) == ByteAt(fs, i, o)
  {
    assert Mapped(fs, i);
    assert o / BSIZE < MAXFILE && o / BSIZE * BSIZE <= o;
    assert MapOf(fs, i, o / BSIZE) != 0;
    assert InFile(fs, i, o);
    assert MapOf(w, i, o / BSIZE) == MapOf(fs, i, o / BSIZE);
  }

  lemma FinishBytes(fs: Fs, w: Fs, ino: nat, off: nat, src: seq<Byte>, i: nat, o: nat)
    requires AllStored(fs, w, ino, off, src) && i < fs.ninodes
    requires o < Finish(w, ino, off, |src|).inodes[i].size
    ensures InFile(Finish(w, ino, off, |src|), i, o)
    ensures ByteAt(Finish(w, ino, off, |src|), i, o)
         == if i == ino && off <= o < off + |src| then src[o - off] else ByteAt(fs, i, o)
  {
    if i == ino && off <= o < off + |src| {
      NewByte(fs, w, ino, off, src, o);
    } else {
      KeptByte(fs, w, ino, off, src, i, o);
    }
    if |src| > 0 && off + |src| > w.inodes[ino].size { ResizeBytes(w, ino, off + |src|, i, o); }
  }

  lemma FinishMapped(fs: Fs, w: Fs, ino: nat, off: nat, src: seq<Byte>, i: nat)
    requires AllStored(fs, w, ino, off, src) && i < fs.ninodes
    ensures Mapped(Finish(w, ino, off, |src|), i)
  {
    assert Mapped(fs, i);
    var r := Finish(w, ino, off, |src|);
    forall bn | 0 <= bn < MAXFILE && bn * BSIZE < r.inodes[i].size ensures MapOf(r, i, bn) != 0 {
      FinishBytes(fs, w, ino, off, src, i, bn * BSIZE);
      assert bn * BSIZE / BSIZE == bn;
    }
  }

  lemma FinishSynced(w: Fs, ino: nat, off: nat, n: nat, i: nat)
    requires Shaped(w) && ino < w.ninodes && i < w.ninodes && off + n <= MAXFILE * BSIZE
    requires Synced(w, i) || (i == ino && n > 0 && off + n > w.inodes[ino].size)
    ensures Synced(Finish(w, ino, off, n), i)
  {
    if n > 0 && off + n > w.inodes[ino].size { ResizeSynced(w, ino, off + n, i); }
  }

  lemma StoredSynced(fs: Fs, w: Fs, ino: nat, off: nat, src: seq<Byte>, i: nat)
    requires AllStored(fs, w, ino, off, src) && i < fs.ninodes && (i == ino ==> w.inodes[ino] == fs.inodes[ino])
    ensures Synced(w, i)
  {
    assert Synced(fs, i);
  }

  lemma FinishConsistent(fs: Fs, w: Fs, ino: nat, off: nat, src: seq<Byte>)
    requires AllStored(fs, w, ino, off, src)
    ensures Consistent(Finish(w, ino, off, |src|))
  {
    if |src| > 0 && off + |src| > w.inodes[ino].size { ResizeOwned(w, ino, off + |src|); }
    forall i | 0 <= i < fs.ninodes
      ensures Mapped(Finish(w, ino, off, |src|), i) && Synced(Finish(w, ino, off, |src|), i)
    {
      FinishMapped(fs, w, ino, off, src, i);
      if i != ino || w.inodes[ino] == fs.inodes[ino] { StoredSynced(fs, w, ino, off, src, i); }
      FinishSynced(w, ino, off, |src|, i);
    }
  }

  lemma OverwriteAt(c: seq<Byte>, off: nat, src: seq<Byte>, o: nat)
    requires off <= |c| && o < |Overwrite(c, off, src)|
    ensures Overwrite(c, off, src)[o] == if off <= o < off + |src| then src[o - off] else c[o]
  {
  }

  /** Reading back what was written, and what was there around it. */
  lemma OverwriteReads(c: seq<Byte>, off: nat, src: seq<Byte>)
    requires off <= |c|
    ensures var d := Overwrite(c, off, src);
      && |d| == (if off + |src| > |c| then off + |src| else |c|)
      && d[off..off + |src|] == src && d[..off] == c[..off]
      && (off + |src| <= |c| ==> d[off + |src|..] == c[off + |src|..])
  {
  }

  /** writei splices exactly its bytes into the file, growing it if needed, and
      changes no other file. */
  lemma FinishContent(fs: Fs, w: Fs, ino: nat, off: nat, src: seq<Byte>, i: nat)
    requires AllStored(fs, w, ino, off, src) && i < fs.ninodes
    ensures Content(Finish(w, ino, off, |src|), i)
         == if i == ino then Overwrite(Content(fs, ino), off, src) else Content(fs, i)
  {
    if i == ino {
      FinishOwnContent(fs, w, ino, off, src);
    } else {
      forall o | 0 <= o < |Content(fs, i)| ensures Content(Finish(w, ino, off, |src|), i)[o] == Content(fs, i)[o] {
        FinishBytes(fs, w, ino, off, src, i, o);
      }
    }
  }

  lemma FinishOwnContent(fs: Fs, w: Fs, ino: nat, off: nat, src: seq<Byte>)
    requires AllStored(fs, w, ino, off, src)
    ensures Content(Finish(w, ino, off, |src|), ino) == Overwrite(Content(fs, ino), off, src)
  {
    var r, c := Finish(w, ino, off, |src|), Overwrite(Content(fs, ino), off, src);
    assert |Content(r, ino)| == |c|;
    forall o | 0 <= o < |c| ensures Content(r, ino)[o] == c[o] {
      FinishBytes(fs, w, ino, off, src, ino, o);
      OverwriteAt(Content(fs, ino), off, src, o);
    }
  }
}
