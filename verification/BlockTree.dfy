/** The block tree of fs.c as values: the free bitmap, the pointers of inodes and
    indirect blocks, and what one call of bmap does to them. Class `FileSystem` is
    proved to perform exactly these updates. */
module BlockTree {
  import opened Blocks
  import opened Options

  const NDIRECT: nat := 10
  const NUM_INDIRECT: nat := 2
  const NADDRS: nat := 13
  const NINDIRECT: nat := NUM_INDIRECT * PTRS_PER_BLOCK
  const NDOUBLE: nat := PTRS_PER_BLOCK * PTRS_PER_BLOCK
  const MAXFILE: nat := NDIRECT + NINDIRECT + NDOUBLE

  /** Inodes per block and bitmap bits per block. */
  const IPB: nat := 8
  const BPB: nat := 4096

  type Addrs = a: seq<Word> | |a| == NADDRS witness seq(NADDRS, _ => 0)

  /** The in-memory inode; `meta` packs type, major, minor and nlink. */
  datatype Inode = Inode(meta0: Word, meta1: Word, size: Word, addrs: Addrs)

  /** The superblock fields, every sector as bread returns it, and the inodes. */
  datatype Fs = Fs(size: nat, ninodes: nat, blocks: seq<Block>, inodes: seq<Inode>)

  function IBlock(ino: nat): (b: nat) { ino / IPB + 2 }

  function BBlock(fs: Fs, b: nat): (r: nat) { b / BPB + fs.ninodes / IPB + 3 }

  /** First sector after the bitmap. */
  function DataStart(fs: Fs): (b: nat) { fs.size / BPB + fs.ninodes / IPB + 4 }

  predicate Shaped(fs: Fs) {
    && |fs.blocks| == fs.size <= 0x1_0000_0000
    && |fs.inodes| == fs.ninodes
    && DataStart(fs) <= fs.size
  }

  function SetBlock(fs: Fs, b: nat, data: Block): (r: Fs)
    requires b < |fs.blocks|
  {
    Fs(fs.size, fs.ninodes, fs.blocks[b := data], fs.inodes)
  }

  function SetInode(fs: Fs, ino: nat, ip: Inode): (r: Fs)
    requires ino < |fs.inodes|
  {
    Fs(fs.size, fs.ninodes, fs.blocks, fs.inodes[ino := ip])
  }

  // ------------------------------------------------------------------ bitmap

  function Pow2(i: nat): (p: nat) { if i == 0 then 1 else 2 * Pow2(i - 1) }

  /** (x & (1 << i)) != 0 */
  predicate Bit(x: nat, i: nat) { if i == 0 then x % 2 == 1 else Bit(x / 2, i - 1) }

  /** x | (1 << i), for a bit that is clear. */
  function SetBit(x: nat, i: nat): (y: nat) { x + Pow2(i) }

  /** Setting a clear bit changes that bit only, and stays within the word. */
  lemma {:induction false} SetBitBit(x: nat, i: nat, j: nat)
    requires !Bit(x, i)
    ensures Bit(SetBit(x, i), j) == (j == i || Bit(x, j))
  {
    if i > 0 {
      assert SetBit(x, i) / 2 == SetBit(x / 2, i - 1);
      if j > 0 { SetBitBit(x / 2, i - 1, j - 1); }
    }
  }

  lemma {:induction false} SetBitBound(x: nat, i: nat, n: nat)
    requires !Bit(x, i) && i < n && x < Pow2(n)
    ensures SetBit(x, i) < Pow2(n)
  {
    if i > 0 {
      SetBitBound(x / 2, i - 1, n - 1);
      assert SetBit(x, i) / 2 == SetBit(x / 2, i - 1);
    }
  }

  /** Byte `k` of a bitmap block with one clear bit set. */
  function MarkByte(x: Byte, i: nat): (y: Byte)
    requires i < 8 && !Bit(x, i)
    ensures forall j :: 0 <= j < 8 ==> Bit(y, j) == (j == i || Bit(x, j))
  {
    assert Pow2(8) == 256 by {
      assert Pow2(2) == 4 && Pow2(4) == 16 && Pow2(6) == 64;
    }
    SetBitBound(x, i, 8);
    assert forall j :: 0 <= j < 8 ==> Bit(SetBit(x, i), j) == (j == i || Bit(x, j)) by {
      forall j | 0 <= j < 8 { SetBitBit(x, i, j); }
    }
    SetBit(x, i)
  }

  // Bit `bi` of a bitmap block, as balloc and bfree address it.

  predicate BitAt(d: seq<Byte>, bi: nat)
    requires |d| == BSIZE && bi < BPB
  {
    Bit(d[bi / 8], bi % 8)
  }

  function MarkAt(d: seq<Byte>, bi: nat): (r: seq<Byte>)
    requires |d| == BSIZE && bi < BPB && !BitAt(d, bi)
    ensures |r| == BSIZE
    ensures forall bj :: 0 <= bj < BPB ==> BitAt(r, bj) == (bj == bi || BitAt(d, bj))
  {
    d[bi / 8 := MarkByte(d[bi / 8], bi % 8)]
  }

  predicate Used(fs: Fs, b: nat)
    requires Shaped(fs) && b < fs.size
  {
    BitAt(fs.blocks[BBlock(fs, b)].bytes, b % BPB)
  }

  function Mark(fs: Fs, b: nat): (r: Fs)
    requires Shaped(fs) && b < fs.size && !Used(fs, b)
    ensures Shaped(r)
  {
    SetBlock(fs, BBlock(fs, b), OfBytes(MarkAt(fs.blocks[BBlock(fs, b)].bytes, b % BPB)))
  }

  lemma MarkUsed(fs: Fs, b: nat, c: nat)
    requires Shaped(fs) && b < fs.size && c < fs.size && !Used(fs, b)
    ensures Used(Mark(fs, b), c) == (c == b || Used(fs, c))
  {
    assert BBlock(fs, b) == BBlock(fs, c) && b % BPB == c % BPB ==> b == c;
  }

  // ------------------------------------------------------------------- slots

  /** A place that can hold a block pointer: one of the thirteen inode slots, an
      entry of one of the two singly-indirect blocks, an entry of the
      doubly-indirect block, or an entry of one of the blocks below it. */
  datatype Slot =
    | Root(ino: nat, k: nat)
    | Single(ino: nat, s: nat, e: nat)
    | Double(ino: nat, i: nat)
    | Leaf(ino: nat, i: nat, e: nat)

  predicate InRange(fs: Fs, x: Slot) {
    && x.ino < |fs.inodes|
    && match x
       case Root(_, k) => k < NADDRS
       case Single(_, s, e) => s < NUM_INDIRECT && e < PTRS_PER_BLOCK
       case Double(_, i) => i < PTRS_PER_BLOCK
       case Leaf(_, i, e) => i < PTRS_PER_BLOCK && e < PTRS_PER_BLOCK
  }

  /** The slot that points to the block this slot lies in. */
  function Parent(x: Slot): (p: Slot)
    requires !x.Root?
  {
    if x.Single? then Root(x.ino, NDIRECT + x.s)
    else if x.Double? then Root(x.ino, NDIRECT + NUM_INDIRECT)
    else Double(x.ino, x.i)
  }

  function Index(x: Slot): (e: nat)
    requires !x.Root?
  {
    if x.Double? then x.i else x.e
  }

  /** A non-root slot is determined by its parent and its index. */
  lemma SlotDetermined(fs: Fs, x: Slot, y: Slot)
    requires InRange(fs, x) && InRange(fs, y) && !x.Root? && !y.Root?
    requires Parent(x) == Parent(y) && Index(x) == Index(y)
    ensures x == y
  {
  }

  /** The slots whose pointers are file contents rather than indirect blocks. */
  predicate IsData(x: Slot) {
    x.Single? || x.Leaf? || (x.Root? && x.k < NDIRECT)
  }

  function Level(x: Slot): (n: nat) {
    if x.Root? then 0 else if x.Leaf? then 2 else 1
  }

  /** Entry `e` of block `p`; a null pointer has only null entries. */
  function Entry(fs: Fs, p: Word, e: nat): (r: Word)
    requires e < PTRS_PER_BLOCK
  {
    if 0 < p < |fs.blocks| then fs.blocks[p].words[e] else 0
  }

  function Ptr(fs: Fs, x: Slot): (p: Word)
    requires InRange(fs, x)
    decreases Level(x)
  {
    if x.Root? then fs.inodes[x.ino].addrs[x.k] else Entry(fs, Ptr(fs, Parent(x)), Index(x))
  }

  /** Every pointer leads to a marked sector of the data area, and no sector is
      reached through two slots. */
  ghost predicate Owned(fs: Fs) {
    && Shaped(fs)
    && (forall b :: 0 <= b < DataStart(fs) ==> Used(fs, b))
    && (forall x :: InRange(fs, x) && Ptr(fs, x) != 0 ==> Marked(fs, Ptr(fs, x)))
    && (forall x, y {:trigger Apart(fs, x, y)} :: InRange(fs, x) && InRange(fs, y) ==> Apart(fs, x, y))
  }

  /** The two slots, if different, do not hold the same sector. */
  predicate Apart(fs: Fs, x: Slot, y: Slot)
    requires InRange(fs, x) && InRange(fs, y)
  {
    x != y && Ptr(fs, x) != 0 ==> Ptr(fs, x) != Ptr(fs, y)
  }

  ghost predicate Marked(fs: Fs, p: Word)
    requires Shaped(fs)
  {
    DataStart(fs) <= p < fs.size && Used(fs, p)
  }

  // -------------------------------------------------------------- allocation

  /** balloc's effect: sector `b` is marked and zeroed. */
  function Alloc(fs: Fs, b: nat): (r: Fs)
    requires Shaped(fs) && b < fs.size && !Used(fs, b)
    ensures Shaped(r)
  {
    SetBlock(Mark(fs, b), b, ZeroBlock())
  }

  /** Stores pointer `p` in slot `x`. */
  function Store(fs: Fs, x: Slot, p: Word): (r: Fs)
    requires Shaped(fs) && InRange(fs, x)
    requires !x.Root? ==> 0 < Ptr(fs, Parent(x)) < |fs.blocks|
    ensures Shaped(r)
  {
    if x.Root? then StoreRoot(fs, x.ino, x.k, p) else StoreEntry(fs, Ptr(fs, Parent(x)), Index(x), p)
  }

  function StoreRoot(fs: Fs, ino: nat, k: nat, p: Word): (r: Fs)
    requires ino < |fs.inodes| && k < NADDRS
  {
    SetInode(fs, ino, SetAddr(fs.inodes[ino], k, p))
  }

  function SetAddr(ip: Inode, k: nat, p: Word): (r: Inode)
    requires k < NADDRS
  {
    Inode(ip.meta0, ip.meta1, ip.size, ip.addrs[k := p])
  }

  function StoreEntry(fs: Fs, c: Word, e: nat, p: Word): (r: Fs)
    requires c < |fs.blocks| && e < PTRS_PER_BLOCK
  {
    SetBlock(fs, c, OfWords(fs.blocks[c].words[e := p]))
  }

  lemma {:induction false} AllocPtr(fs: Fs, b: nat, y: Slot)
    requires Owned(fs) && b < fs.size && !Used(fs, b) && InRange(fs, y)
    ensures Ptr(Alloc(fs, b), y) == Ptr(fs, y)
    decreases Level(y)
  {
    if !y.Root? {
      AllocPtr(fs, b, Parent(y));
      var p := Ptr(fs, Parent(y));
      if p != 0 {
        assert Marked(fs, p);
        assert Alloc(fs, b).blocks[p] == fs.blocks[p];
      }
    }
  }

  lemma AllocUsed(fs: Fs, b: nat, c: nat)
    requires Owned(fs) && b < fs.size && c < fs.size && !Used(fs, b)
    ensures DataStart(fs) <= b
    ensures Used(Alloc(fs, b), c) == (c == b || Used(fs, c))
  {
    MarkUsed(fs, b, c);
    assert Alloc(fs, b).blocks[BBlock(fs, c)] == Mark(fs, b).blocks[BBlock(fs, c)];
  }

  /** An allocated sector is not yet reached by any slot, and holds no pointers. */
  ghost predicate Fresh(fs: Fs, b: Word)
    requires Shaped(fs)
  {
    && Marked(fs, b)
    && fs.blocks[b] == ZeroBlock()
    && forall x :: InRange(fs, x) ==> Ptr(fs, x) != b
  }

  lemma AllocFresh(fs: Fs, b: nat)
    requires Owned(fs) && b < fs.size && !Used(fs, b)
    ensures Owned(Alloc(fs, b)) && Fresh(Alloc(fs, b), b)
  {
    var r := Alloc(fs, b);
    forall c | 0 <= c < fs.size ensures Used(r, c) == (c == b || Used(fs, c)) { AllocUsed(fs, b, c); }
    forall x | InRange(r, x)
      ensures InRange(fs, x) && Ptr(r, x) == Ptr(fs, x)
      ensures Ptr(r, x) != b && (Ptr(r, x) != 0 ==> Marked(r, Ptr(r, x)))
    {
      AllocPtr(fs, b, x);
      if Ptr(fs, x) != 0 { assert Marked(fs, Ptr(fs, x)); }
    }
    StillApart(fs, r);
  }

  lemma StillApart(fs: Fs, r: Fs)
    requires Owned(fs) && |r.inodes| == |fs.inodes|
    requires forall x :: InRange(fs, x) ==> Ptr(r, x) == Ptr(fs, x)
    ensures forall x, y {:trigger Apart(r, x, y)} :: InRange(r, x) && InRange(r, y) ==> Apart(r, x, y)
  {
    forall x, y | InRange(r, x) && InRange(r, y) ensures Apart(r, x, y) { assert Apart(fs, x, y); }
  }

  /** A free slot that can be filled: its own block, if any, is there. */
  ghost predicate Fillable(fs: Fs, x: Slot) {
    InRange(fs, x) && Ptr(fs, x) == 0 && (!x.Root? ==> Ptr(fs, Parent(x)) != 0)
  }

  /** Filling a slot changes that pointer and no other. */
  lemma {:induction false} StorePtr(fs: Fs, x: Slot, b: Word, y: Slot)
    requires Owned(fs) && Fillable(fs, x) && Fresh(fs, b) && InRange(fs, y)
    requires !x.Root? ==> Marked(fs, Ptr(fs, Parent(x)))
    ensures Ptr(Store(fs, x, b), y) == if y == x then b else Ptr(fs, y)
    decreases Level(y)
  {
    hide Owned, Used, Fresh;
    if !y.Root? {
      StorePtr(fs, x, b, Parent(y));
      StorePtrBelow(fs, x, b, y);
    }
  }

  /** A slot of an indirect block, once its parent is known to be right. */
  lemma StorePtrBelow(fs: Fs, x: Slot, b: Word, y: Slot)
    requires Owned(fs) && Fillable(fs, x) && Fresh(fs, b) && InRange(fs, y) && !y.Root?
    requires !x.Root? ==> Marked(fs, Ptr(fs, Parent(x)))
    requires Ptr(Store(fs, x, b), Parent(y)) == if Parent(y) == x then b else Ptr(fs, Parent(y))
    ensures Ptr(Store(fs, x, b), y) == if y == x then b else Ptr(fs, y)
  {
    hide Used;
    var r, p := Store(fs, x, b), Parent(y);
    if p == x {
      assert r.blocks[b] == fs.blocks[b];
    } else if !x.Root? && Ptr(fs, p) == Ptr(fs, Parent(x)) && Index(y) == Index(x) {
      assert Apart(fs, p, Parent(x));
      SlotDetermined(fs, x, y);
    }
  }

  /** One allocation of bmap: sector `b` is taken and stored in slot `x`. */
  function Attach(fs: Fs, x: Slot, b: Word): (r: Fs)
    requires Shaped(fs) && b < fs.size && !Used(fs, b) && InRange(fs, x)
    requires !x.Root? ==> 0 < Ptr(Alloc(fs, b), Parent(x)) < fs.size
    ensures Shaped(r)
  {
    Store(Alloc(fs, b), x, b)
  }

  lemma Attachable(fs: Fs, x: Slot, b: Word)
    requires Owned(fs) && Fillable(fs, x) && b < fs.size && !Used(fs, b)
    ensures DataStart(fs) <= b
    ensures !x.Root? ==> 0 < Ptr(Alloc(fs, b), Parent(x)) < fs.size
  {
    AllocUsed(fs, b, b);
    if !x.Root? {
      AllocPtr(fs, b, Parent(x));
      assert Marked(fs, Ptr(fs, Parent(x)));
    }
  }

  lemma AttachPtr(fs: Fs, x: Slot, b: Word, y: Slot)
    requires Owned(fs) && Fillable(fs, x) && b < fs.size && !Used(fs, b) && InRange(fs, y)
    requires !x.Root? ==> 0 < Ptr(Alloc(fs, b), Parent(x)) < fs.size
    ensures Ptr(Attach(fs, x, b), y) == if y == x then b else Ptr(fs, y)
  {
    hide Marked, Apart, BitAt, Used, Fresh;
    var a := Alloc(fs, b);
    AllocFresh(fs, b);
    AllocPtr(fs, b, x);
    AllocPtr(fs, b, y);
    assert !x.Root? ==> Marked(a, Ptr(a, Parent(x)));
    StorePtr(a, x, b, y);
  }

  /** Sectors that an attachment does not touch: everything but the bitmap, the
      new sector and the indirect block that received the pointer. */
  lemma AttachBlocks(fs: Fs, x: Slot, b: Word, c: nat)
    requires Owned(fs) && Fillable(fs, x) && b < fs.size && !Used(fs, b)
    requires !x.Root? ==> 0 < Ptr(Alloc(fs, b), Parent(x)) < fs.size
    requires c < fs.size && c != b && c != BBlock(fs, b) && (!x.Root? ==> c != Ptr(fs, Parent(x)))
    ensures Attach(fs, x, b).blocks[c] == fs.blocks[c]
  {
    if !x.Root? { AllocPtr(fs, b, Parent(x)); }
  }

  lemma AttachOwned(fs: Fs, x: Slot, b: Word)
    requires Owned(fs) && Fillable(fs, x) && b < fs.size && !Used(fs, b)
    requires !x.Root? ==> 0 < Ptr(Alloc(fs, b), Parent(x)) < fs.size
    ensures Owned(Attach(fs, x, b))
  {
    hide Used, Ptr, Parent, Entry, Bit, Level, MarkAt, Index, BitAt;
    var a, r := Alloc(fs, b), Attach(fs, x, b);
    AllocFresh(fs, b);
    AttachUsed(fs, x, b);
    forall y | InRange(r, y)
      ensures InRange(a, y) && Ptr(r, y) == if y == x then b else Ptr(a, y)
    {
      AllocPtr(fs, b, y);
      AttachPtr(fs, x, b, y);
    }
    forall y | InRange(r, y) && Ptr(r, y) != 0 ensures Marked(r, Ptr(r, y)) {
      if y != x { assert Marked(a, Ptr(a, y)); }
    }
    forall y, z | InRange(r, y) && InRange(r, z) ensures Apart(r, y, z) { assert Apart(a, y, z); }
  }

  lemma AttachUsed(fs: Fs, x: Slot, b: Word)
    requires Owned(fs) && Fillable(fs, x) && b < fs.size && !Used(fs, b)
    requires !x.Root? ==> 0 < Ptr(Alloc(fs, b), Parent(x)) < fs.size
    ensures forall c :: 0 <= c < fs.size ==> Used(Attach(fs, x, b), c) == Used(Alloc(fs, b), c)
  {
    hide Ptr, Apart, BitAt, Bit;
    var a, r := Alloc(fs, b), Attach(fs, x, b);
    if !x.Root? {
      AllocPtr(fs, b, Parent(x));
      assert Marked(fs, Ptr(fs, Parent(x)));
    }
    forall c | 0 <= c < fs.size ensures r.blocks[BBlock(fs, c)] == a.blocks[BBlock(fs, c)] { }
  }

  // -------------------------------------------------------------------- bmap

  /** balloc's choice: the first sector at or after `k` whose bit is clear. */
  function FreeFrom(fs: Fs, k: nat): (r: Option<Word>)
    requires Shaped(fs) && k <= fs.size
    ensures r.Some? ==> k <= r.value < fs.size && !Used(fs, r.value)
    ensures r.Some? ==> forall c :: k <= c < r.value ==> Used(fs, c)
    ensures r.None? ==> forall c :: k <= c < fs.size ==> Used(fs, c)
    decreases fs.size - k
  {
    if k == fs.size then None else if !Used(fs, k) then Some(k) else FreeFrom(fs, k + 1)
  }

  /** balloc scans the log's sectors too, which the bitmap does not mark: it returns a
      sector below `limit` exactly as long as one is free there. */
  lemma {:induction false} FreeBelow(fs: Fs, k: nat, limit: nat)
    requires Shaped(fs) && k <= limit <= fs.size
    ensures (FreeFrom(fs, k).Some? && FreeFrom(fs, k).value < limit) <==> exists c :: k <= c < limit && !Used(fs, c)
    decreases limit - k
  {
    if k < limit && Used(fs, k) { FreeBelow(fs, k + 1, limit); }
  }

  /** Fills slot `x` if it is empty; None if balloc panics. */
  function Fill(fs: Fs, x: Slot): (r: Option<Fs>)
    requires Owned(fs) && InRange(fs, x) && (!x.Root? ==> Ptr(fs, Parent(x)) != 0)
  {
    if Ptr(fs, x) != 0 then Some(fs)
    else
      match FreeFrom(fs, 0)
      case None => None
      case Some(b) =>
        Attachable(fs, x, b);
        Some(Attach(fs, x, b))
  }

  /** bmap: makes slot `x` hold a sector, filling the slots above it first. */
  function Reach(fs: Fs, x: Slot): (r: Option<Fs>)
    requires Owned(fs) && InRange(fs, x)
    ensures r.Some? ==> Extends(fs, r.value, x)
    decreases Level(x)
  {
    if x.Root? then
      FillExtends(fs, x);
      Fill(fs, x)
    else
      match Reach(fs, Parent(x))
      case None => None
      case Some(f) =>
        FillExtends(f, x);
        match Fill(f, x)
        case None => None
        case Some(r) =>
          ExtendsStep(fs, f, r, x);
          Some(r)
  }

  predicate OnPath(x: Slot, y: Slot)
    decreases Level(x)
  {
    y == x || (!x.Root? && OnPath(Parent(x), y))
  }

  /** Pointers: only empty slots on the way to `x` are filled. */
  ghost predicate PtrsGrow(fs: Fs, r: Fs, x: Slot)
    requires |r.inodes| == |fs.inodes|
  {
    forall y :: InRange(fs, y) ==> Ptr(r, y) == Ptr(fs, y) || (OnPath(x, y) && Ptr(fs, y) == 0)
  }

  /** File contents: mapped data sectors keep theirs. */
  ghost predicate DataKept(fs: Fs, r: Fs)
    requires Owned(fs) && |r.blocks| == |fs.blocks|
  {
    forall y :: InRange(fs, y) && IsData(y) && Ptr(fs, y) != 0 ==> r.blocks[Ptr(fs, y)] == fs.blocks[Ptr(fs, y)]
  }

  /** What a call of bmap that reaches slot `x` may change. */
  ghost predicate Extends(fs: Fs, r: Fs, x: Slot) {
    && Owned(fs) && Owned(r)
    && r.size == fs.size && r.ninodes == fs.ninodes
    && InRange(fs, x) && Ptr(r, x) != 0
    && PtrsGrow(fs, r, x)
    && DataKept(fs, r)
    // a new data sector reads as zeroes
    && (IsData(x) && Ptr(fs, x) == 0 ==> r.blocks[Ptr(r, x)] == ZeroBlock())
    && SameMetadata(fs, r, x.ino)
    && (Ptr(fs, x) != 0 ==> r == fs)
  }

  /** Only the pointers of inode `ino` may differ, and no inode sector does. */
  ghost predicate SameMetadata(fs: Fs, r: Fs, ino: nat)
    requires Shaped(fs) && Shaped(r) && r.size == fs.size && r.ninodes == fs.ninodes
  {
    && (forall i :: 0 <= i < fs.ninodes ==> r.blocks[IBlock(i)] == fs.blocks[IBlock(i)])
    && (forall i :: 0 <= i < fs.ninodes && i != ino ==> r.inodes[i] == fs.inodes[i])
    && (ino < fs.ninodes ==> SameAttributes(fs.inodes[ino], r.inodes[ino]))
  }

  predicate SameAttributes(ip: Inode, jp: Inode) {
    jp.size == ip.size && jp.meta0 == ip.meta0 && jp.meta1 == ip.meta1
  }

  lemma FillExtends(fs: Fs, x: Slot)
    requires Owned(fs) && InRange(fs, x) && (!x.Root? ==> Ptr(fs, Parent(x)) != 0)
    ensures Fill(fs, x).Some? ==> Extends(fs, Fill(fs, x).value, x)
  {
    if Ptr(fs, x) == 0 && FreeFrom(fs, 0).Some? {
      var b := FreeFrom(fs, 0).value;
      Attachable(fs, x, b);
      AttachExtends(fs, x, b);
    }
  }

  lemma AttachExtends(fs: Fs, x: Slot, b: Word)
    requires Owned(fs) && Fillable(fs, x) && b < fs.size && !Used(fs, b)
    requires !x.Root? ==> 0 < Ptr(Alloc(fs, b), Parent(x)) < fs.size
    ensures Extends(fs, Attach(fs, x, b), x)
  {
    var r := Attach(fs, x, b);
    AttachOwned(fs, x, b);
    AttachPtr(fs, x, b, x);
    forall y | InRange(fs, y) ensures Ptr(r, y) == Ptr(fs, y) || y == x { AttachPtr(fs, x, b, y); }
    AttachData(fs, x, b);
    AttachMetadata(fs, x, b);
    AttachZero(fs, x, b);
  }

  lemma AttachData(fs: Fs, x: Slot, b: Word)
    requires Owned(fs) && Fillable(fs, x) && b < fs.size && !Used(fs, b)
    requires !x.Root? ==> 0 < Ptr(Alloc(fs, b), Parent(x)) < fs.size
    requires Owned(Attach(fs, x, b)) && Attach(fs, x, b).size == fs.size
    ensures DataKept(fs, Attach(fs, x, b))
  {
    var r := Attach(fs, x, b);
    forall y | InRange(fs, y) && IsData(y) && Ptr(fs, y) != 0
      ensures r.blocks[Ptr(fs, y)] == fs.blocks[Ptr(fs, y)]
    {
      assert Marked(fs, Ptr(fs, y));
      if !x.Root? { assert Apart(fs, y, Parent(x)); }
      AttachBlocks(fs, x, b, Ptr(fs, y));
    }
  }

  lemma AttachZero(fs: Fs, x: Slot, b: Word)
    requires Owned(fs) && Fillable(fs, x) && b < fs.size && !Used(fs, b)
    requires !x.Root? ==> 0 < Ptr(Alloc(fs, b), Parent(x)) < fs.size
    ensures Attach(fs, x, b).blocks[b] == ZeroBlock()
  {
    if !x.Root? {
      AllocPtr(fs, b, Parent(x));
      assert Marked(fs, Ptr(fs, Parent(x)));
    }
  }

  lemma AttachMetadata(fs: Fs, x: Slot, b: Word)
    requires Owned(fs) && Fillable(fs, x) && b < fs.size && !Used(fs, b)
    requires !x.Root? ==> 0 < Ptr(Alloc(fs, b), Parent(x)) < fs.size
    ensures SameMetadata(fs, Attach(fs, x, b), x.ino)
  {
    Attachable(fs, x, b);
    if !x.Root? { assert Marked(fs, Ptr(fs, Parent(x))); }
    forall i | 0 <= i < fs.ninodes ensures Attach(fs, x, b).blocks[IBlock(i)] == fs.blocks[IBlock(i)] {
      AttachBlocks(fs, x, b, IBlock(i));
    }
  }

  lemma ExtendsStep(fs: Fs, f: Fs, r: Fs, x: Slot)
    requires !x.Root? && InRange(fs, x) && Extends(fs, f, Parent(x)) && Extends(f, r, x)
    ensures Extends(fs, r, x)
  {
    assert !OnPath(Parent(x), x);
    assert Ptr(f, x) == Ptr(fs, x);
    PtrsGrowTrans(fs, f, r, x);
    DataKeptTrans(fs, f, r, x);
  }

  lemma PtrsGrowTrans(fs: Fs, f: Fs, r: Fs, x: Slot)
    requires |r.inodes| == |fs.inodes| == |f.inodes| && !x.Root? && InRange(fs, x)
    requires PtrsGrow(fs, f, Parent(x)) && PtrsGrow(f, r, x)
    ensures PtrsGrow(fs, r, x)
  {
    forall y | InRange(fs, y) ensures Ptr(r, y) == Ptr(fs, y) || (OnPath(x, y) && Ptr(fs, y) == 0) {
      assert InRange(f, y);
    }
  }

  lemma DataKeptTrans(fs: Fs, f: Fs, r: Fs, x: Slot)
    requires Owned(fs) && Owned(f) && |r.blocks| == |fs.blocks| == |f.blocks|
    requires !x.Root? && InRange(fs, x) && |fs.inodes| == |f.inodes|
    requires PtrsGrow(fs, f, Parent(x)) && DataKept(fs, f) && DataKept(f, r)
    ensures DataKept(fs, r)
  {
    forall y | InRange(fs, y) && IsData(y) && Ptr(fs, y) != 0
      ensures r.blocks[Ptr(fs, y)] == fs.blocks[Ptr(fs, y)]
    {
      assert InRange(f, y) && Ptr(f, y) == Ptr(fs, y);
    }
  }

  // ------------------------------------------------ what bmap promises callers

  /** The slot of block `bn` of a file, as bmap computes it. */
  function SlotOf(ino: nat, bn: nat): (x: Slot)
    requires bn < MAXFILE
    ensures IsData(x) && x.ino == ino
  {
    if bn < NDIRECT then Root(ino, bn)
    else if bn - NDIRECT < NINDIRECT then
      Single(ino, (bn - NDIRECT) / PTRS_PER_BLOCK, (bn - NDIRECT) % PTRS_PER_BLOCK)
    else
      var sb := bn - NDIRECT - NINDIRECT;
      Leaf(ino, sb / PTRS_PER_BLOCK, sb % PTRS_PER_BLOCK)
  }

  /** Different blocks of different files use different slots. */
  lemma SlotOfInjective(ino: nat, bn: nat, ino': nat, bn': nat)
    requires bn < MAXFILE && bn' < MAXFILE && SlotOf(ino, bn) == SlotOf(ino', bn')
    ensures ino == ino' && bn == bn'
  {
  }

  /** The sector of block `bn` of file `ino`, or 0. */
  function MapOf(fs: Fs, ino: nat, bn: nat): (p: Word)
    requires ino < |fs.inodes| && bn < MAXFILE
  {
    Ptr(fs, SlotOf(ino, bn))
  }

  /** No two blocks share a sector. */
  lemma MapInjective(fs: Fs, ino: nat, bn: nat, ino': nat, bn': nat)
    requires Owned(fs) && ino < fs.ninodes && ino' < fs.ninodes && bn < MAXFILE && bn' < MAXFILE
    requires MapOf(fs, ino, bn) == MapOf(fs, ino', bn') != 0
    ensures ino == ino' && bn == bn'
  {
    assert Apart(fs, SlotOf(ino, bn), SlotOf(ino', bn'));
  }

  function Bmap(fs: Fs, ino: nat, bn: nat): (r: Option<Fs>)
    requires Owned(fs) && ino < fs.ninodes && bn < MAXFILE
    ensures r.Some? ==> Extends(fs, r.value, SlotOf(ino, bn))
  {
    Reach(fs, SlotOf(ino, bn))
  }

  /** A call of bmap leaves the mapping of every other block of every file alone. */
  lemma BmapOthers(fs: Fs, ino: nat, bn: nat, ino': nat, bn': nat)
    requires Owned(fs) && ino < fs.ninodes && ino' < fs.ninodes && bn < MAXFILE && bn' < MAXFILE
    requires Bmap(fs, ino, bn).Some? && (ino, bn) != (ino', bn')
    ensures MapOf(Bmap(fs, ino, bn).value, ino', bn') == MapOf(fs, ino', bn')
  {
    var x, y := SlotOf(ino, bn), SlotOf(ino', bn');
    if OnPath(x, y) {
      DataOnPath(x, y);
      SlotOfInjective(ino, bn, ino', bn');
    }
    assert InRange(fs, y);
  }

  lemma DataOnPath(x: Slot, y: Slot)
    requires OnPath(x, y) && IsData(y)
    ensures x == y
  {
    if y != x {
      var p := Parent(x);
      assert p.Root? || OnPath(Parent(p), y);
    }
  }

  /** A second call finds the block mapped and changes nothing. */
  lemma BmapStable(fs: Fs, ino: nat, bn: nat)
    requires Owned(fs) && ino < fs.ninodes && bn < MAXFILE && Bmap(fs, ino, bn).Some?
    ensures var r := Bmap(fs, ino, bn).value;
            MapOf(r, ino, bn) != 0 && Bmap(r, ino, bn) == Some(r)
  {
    var r := Bmap(fs, ino, bn).value;
    ReachFilled(r, SlotOf(ino, bn));
  }

  lemma {:induction false} ReachFilled(fs: Fs, x: Slot)
    requires Owned(fs) && InRange(fs, x) && Ptr(fs, x) != 0
    ensures Reach(fs, x) == Some(fs)
    decreases Level(x)
  {
    if !x.Root? { ReachFilled(fs, Parent(x)); }
  }

  datatype BmapCall = BmapCall(ino: nat, bn: nat)

  /** A series of bmap calls on any files, none of which ran out of sectors. */
  ghost predicate BmapRun(states: seq<Fs>, calls: seq<BmapCall>) {
    && |states| == |calls| + 1
    && Owned(states[0])
    && forall i :: 0 <= i < |calls| ==> BmapStep(states[i], calls[i], states[i + 1])
  }

  ghost predicate BmapStep(fs: Fs, c: BmapCall, r: Fs) {
    Owned(fs) && c.ino < fs.ninodes && c.bn < MAXFILE && Bmap(fs, c.ino, c.bn) == Some(r)
  }

  /** After any series of bmap calls the ownership invariant holds, every block
      that was ever mapped is still mapped to the same sector, and a block that no
      call named is mapped exactly as it was at the start. */
  lemma {:induction false} BmapRunOwned(states: seq<Fs>, calls: seq<BmapCall>, ino: nat, bn: nat)
    requires BmapRun(states, calls) && ino < states[0].ninodes && bn < MAXFILE
    ensures var r := states[|calls|];
            && Owned(r) && r.ninodes == states[0].ninodes
            && (MapOf(states[0], ino, bn) != 0 ==> MapOf(r, ino, bn) == MapOf(states[0], ino, bn))
            && ((forall i :: 0 <= i < |calls| ==> calls[i] != BmapCall(ino, bn)) ==>
                  MapOf(r, ino, bn) == MapOf(states[0], ino, bn))
  {
    if calls != [] {
      var n := |calls| - 1;
      BmapRunOwned(states[..n + 1], calls[..n], ino, bn);
      assert BmapStep(states[n], calls[n], states[n + 1]);
      if calls[n] != BmapCall(ino, bn) {
        BmapOthers(states[n], calls[n].ino, calls[n].bn, ino, bn);
      }
    }
  }
}
