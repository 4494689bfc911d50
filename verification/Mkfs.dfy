/** What the example disks have in common: mkfs's geometry, a root directory that names
    one ordinary file, and bitmap bytes. */
module Mkfs {
  import opened Blocks
  import opened BlockTree
  import opened Files
  import opened Supply

  const SIZE: nat := 25045
  const NINODES: nat := 200
  const LOG_START: nat := 25035

  /** The root directory's inode, and the file's. */
  const ROOT: nat := 1
  const INO: nat := 2

  /** The root directory's only sector. */
  const DIR_SECTOR: nat := 50

  /** An inode of type `kind` (1 for a directory, 2 for a file) with one link. */
  function Typed(kind: Word, size: Word, addrs: Addrs): (ip: Inode) { Inode(kind, 0x1_0000, size, addrs) }

  function RootDir(): (ip: Inode) { Typed(1, BSIZE, seq(NADDRS, k => if k == 0 then DIR_SECTOR else 0)) }

  function File(size: Word, addrs: Addrs): (ip: Inode) { Typed(2, size, addrs) }

  function Unused(): (ip: Inode) { Inode(0, 0, 0, seq(NADDRS, _ => 0)) }

  /** The entries ".", ".." and "f", of 16 bytes each. */
  function DirByte(i: nat): (x: Byte) {
    if i == 0 || i == 16 then 1 else if i == 32 then 2
    else if i == 2 || i == 18 || i == 19 then 46 else if i == 34 then 102 else 0
  }

  function DirSector(): (b: Block) { OfBytes(seq(BSIZE, i requires 0 <= i => DirByte(i))) }

  /** The first sector of inodes. */
  function InodeSector(file: Inode): (b: Block) { PutDinode(PutDinode(ZeroBlock(), ROOT, RootDir()), INO, file) }

  function InodeAt(file: Inode, i: nat): (ip: Inode) {
    if i == ROOT then RootDir() else if i == INO then file else Unused()
  }

  lemma ZeroDinode(k: nat)
    requires k < IPB
    ensures GetDinode(ZeroBlock(), k) == Unused()
  {
    assert ZeroBlock().words[16 * k + 3..16 * k + 16] == Unused().addrs;
  }

  lemma InodeSectorIs(file: Inode, k: nat)
    requires k < IPB
    ensures GetDinode(InodeSector(file), k) == InodeAt(file, k)
  {
    ZeroDinode(k);
    DinodeRoundTrip(ZeroBlock(), ROOT, RootDir(), k);
    DinodeRoundTrip(PutDinode(ZeroBlock(), ROOT, RootDir()), INO, file, k);
  }

  // -------------------------------------------------------------------- bitmap

  lemma {:induction false} Ones(n: nat, i: nat)
    ensures Pow2(n) > 0 && (Bit(Pow2(n) - 1, i) <==> i < n)
  {
    if n == 0 {
      Zeros(i);
    } else if i == 0 {
      Ones(n - 1, 0);
    } else {
      Ones(n - 1, i - 1);
      assert (Pow2(n) - 1) / 2 == Pow2(n - 1) - 1;
    }
  }

  lemma {:induction false} Zeros(i: nat)
    ensures !Bit(0, i)
  {
    if i > 0 { Zeros(i - 1); }
  }

  lemma BitmapBits(i: nat)
    requires i < 8
    ensures Bit(255, i) && (Bit(63, i) <==> i < 6) && (Bit(248, i) <==> i >= 3) && (Bit(7, i) <==> i < 3)
  {
    assert Pow2(2) == 4 && Pow2(3) == 8 && Pow2(4) == 16 && Pow2(5) == 32 && Pow2(6) == 64 && Pow2(8) == 256;
    Ones(8, i);
    Ones(6, i);
    Ones(3, i);
    if i >= 3 {
      Ones(5, i - 3);
      assert Bit(62, i - 2) && Bit(124, i - 1);
    } else if i > 0 {
      assert !Bit(62, 0) && !Bit(124, 0);
      if i == 2 { assert !Bit(124, 1); }
    }
  }

  lemma {:induction false} FreeSkip(fs: Fs, k: nat, m: nat)
    requires Shaped(fs) && k <= m <= fs.size && forall c :: k <= c < m ==> Used(fs, c)
    ensures Free(fs, k) == Free(fs, m)
    decreases m - k
  {
    if k < m { FreeSkip(fs, k + 1, m); }
  }
}
