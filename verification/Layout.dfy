/** Where things are on the disk, in plain numbers: which sectors a file consists of,
    which bit stands for a sector, where an inode and the log's header keep their
    fields. The definitions used elsewhere are proved to say just this. */
module Layout {
  import opened Blocks
  import opened BlockTree
  import opened Files
  import Log

  // ------------------------------------------------------- the sectors of a file

  /** The 128 pointers in indirect block `p`; all null if there is no such block. */
  function Entries(fs: Fs, p: Word): (ws: seq<Word>)
    ensures |ws| == 128
  {
    if 0 < p < |fs.blocks| then fs.blocks[p].words else seq(128, _ => 0)
  }

  /** The pointers in the blocks `ps`, one block after another. */
  function Joined(fs: Fs, ps: seq<Word>): (ws: seq<Word>)
    ensures |ws| == 128 * |ps|
  {
    if ps == [] then [] else Entries(fs, ps[0]) + Joined(fs, ps[1..])
  }

  /** The sectors of a file, in order: ten direct ones, those listed in two indirect
      blocks, and those listed in the blocks that the doubly-indirect block lists. */
  function Sectors(fs: Fs, ino: nat): (ws: seq<Word>)
    requires ino < |fs.inodes|
    ensures |ws| == 16650
  {
    var a := fs.inodes[ino].addrs;
    a[..10] + Entries(fs, a[10]) + Entries(fs, a[11]) + Joined(fs, Entries(fs, a[12]))
  }

  lemma {:induction false} JoinedAt(fs: Fs, ps: seq<Word>, i: nat, e: nat)
    requires i < |ps| && e < 128
    ensures Joined(fs, ps)[128 * i + e] == Entries(fs, ps[i])[e]
  {
    if i > 0 {
      JoinedAt(fs, ps[1..], i - 1, e);
    }
  }

  lemma SingleEntry(fs: Fs, ino: nat, s: nat, e: nat)
    requires ino < |fs.inodes| && s < 2 && e < 128
    ensures Ptr(fs, Single(ino, s, e)) == Entries(fs, fs.inodes[ino].addrs[10 + s])[e]
  {
  }

  lemma LeafEntry(fs: Fs, ino: nat, i: nat, e: nat)
    requires ino < |fs.inodes| && i < 128 && e < 128
    ensures Ptr(fs, Leaf(ino, i, e)) == Joined(fs, Entries(fs, fs.inodes[ino].addrs[12]))[128 * i + e]
  {
    assert Ptr(fs, Double(ino, i)) == Entries(fs, fs.inodes[ino].addrs[12])[i];
    JoinedAt(fs, Entries(fs, fs.inodes[ino].addrs[12]), i, e);
  }

  /** The block tree is that list. */
  lemma MapIsSector(fs: Fs, ino: nat, bn: nat)
    requires ino < |fs.inodes|
    ensures bn < MAXFILE <==> bn < |Sectors(fs, ino)|
    ensures bn < MAXFILE ==> MapOf(fs, ino, bn) == Sectors(fs, ino)[bn]
  {
    hide Joined, Entries;
    if 10 <= bn < 266 {
      hide Ptr;
      SingleEntry(fs, ino, (bn - 10) / 128, (bn - 10) % 128);
    } else if 266 <= bn < MAXFILE {
      hide Ptr;
      LeafEntry(fs, ino, (bn - 266) / 128, (bn - 266) % 128);
    }
  }

  // -------------------------------------------------------- the bytes of a file

  function BytesOf(fs: Fs, p: Word): (d: seq<Byte>)
    ensures |d| == 512
  {
    if p < |fs.blocks| then fs.blocks[p].bytes else seq(512, _ => 0)
  }

  function JoinedBytes(fs: Fs, ps: seq<Word>): (d: seq<Byte>)
    ensures |d| == 512 * |ps|
  {
    if ps == [] then [] else BytesOf(fs, ps[0]) + JoinedBytes(fs, ps[1..])
  }

  lemma {:induction false} JoinedByteAt(fs: Fs, ps: seq<Word>, o: nat)
    requires o < 512 * |ps|
    ensures JoinedBytes(fs, ps)[o] == BytesOf(fs, ps[o / 512])[o % 512]
  {
    if o >= 512 {
      JoinedByteAt(fs, ps[1..], o - 512);
      assert (o - 512) / 512 == o / 512 - 1 && (o - 512) % 512 == o % 512;
    }
  }

  /** What a file contains: the bytes of its sectors one after another, up to its size. */
  lemma ContentIsJoined(fs: Fs, ino: nat)
    requires ino < |fs.inodes| && fs.inodes[ino].size <= MAXFILE * BSIZE
    ensures fs.inodes[ino].size <= |JoinedBytes(fs, Sectors(fs, ino))|
    ensures Content(fs, ino) == JoinedBytes(fs, Sectors(fs, ino))[..fs.inodes[ino].size]
  {
    var ps := Sectors(fs, ino);
    forall o | 0 <= o < fs.inodes[ino].size ensures Content(fs, ino)[o] == JoinedBytes(fs, ps)[o] {
      JoinedByteAt(fs, ps, o);
      MapIsSector(fs, ino, o / 512);
    }
  }

  // -------------------------------------------------- bitmap, inodes and log header

  /** The bitmap follows the inodes, whose sectors start at 2 and hold eight each; bit
      `b % 8` of byte `b / 8` stands for sector `b`. */
  lemma BitPlace(fs: Fs, b: nat)
    requires Shaped(fs) && b < fs.size
    ensures b / 4096 + fs.ninodes / 8 + 3 < |fs.blocks|
    ensures Used(fs, b) <==>
      fs.blocks[b / 4096 + fs.ninodes / 8 + 3].bytes[b % 4096 / 8] / [1, 2, 4, 8, 16, 32, 64, 128][b % 8] % 2 == 1
  {
    assert b % 4096 % 8 == b % 8;
    BitIsDigit(fs.blocks[BBlock(fs, b)].bytes[b % 4096 / 8], b % 8);
  }

  lemma BitIsDigit(x: Byte, i: nat)
    requires i < 8
    ensures Bit(x, i) <==> x / [1, 2, 4, 8, 16, 32, 64, 128][i] % 2 == 1
  {
    assert x / 4 == x / 2 / 2 && x / 8 == x / 4 / 2 && x / 16 == x / 8 / 2;
    assert x / 32 == x / 16 / 2 && x / 64 == x / 32 / 2 && x / 128 == x / 64 / 2;
    assert Bit(x, i) == if i == 0 then x % 2 == 1 else Bit(x / 2, i - 1);
    assert i >= 1 ==> Bit(x / 2, i - 1) == if i == 1 then x / 2 % 2 == 1 else Bit(x / 4, i - 2);
    assert i >= 2 ==> Bit(x / 4, i - 2) == if i == 2 then x / 4 % 2 == 1 else Bit(x / 8, i - 3);
    assert i >= 3 ==> Bit(x / 8, i - 3) == if i == 3 then x / 8 % 2 == 1 else Bit(x / 16, i - 4);
    assert i >= 4 ==> Bit(x / 16, i - 4) == if i == 4 then x / 16 % 2 == 1 else Bit(x / 32, i - 5);
    assert i >= 5 ==> Bit(x / 32, i - 5) == if i == 5 then x / 32 % 2 == 1 else Bit(x / 64, i - 6);
    assert i >= 6 ==> Bit(x / 64, i - 6) == if i == 6 then x / 64 % 2 == 1 else Bit(x / 128, i - 7);
  }

  /** A word is stored with its low byte first. */
  lemma {:induction false} WordPlace(ws: seq<Word>, k: nat)
    requires k < |ws|
    ensures var d: seq<int> := Digits(ws);
      ws[k] == d[4 * k] + 256 * d[4 * k + 1] + 65536 * d[4 * k + 2] + 16777216 * d[4 * k + 3]
  {
    if k == 0 {
      var w: int := ws[0];
      assert w / 0x1_0000 == w / 0x100 / 0x100 && w / 0x100_0000 == w / 0x1_0000 / 0x100;
    } else {
      WordPlace(ws[1..], k - 1);
    }
  }

  /** Inode `ino` is words 16 * (ino % 8) onwards of sector ino / 8 + 2: two words of
      type, device numbers and link count, the size, and the thirteen pointers. */
  lemma InodePlace(fs: Fs, ino: nat)
    requires Shaped(fs) && ino < fs.ninodes
    ensures ino / 8 + 2 < |fs.blocks|
    ensures Synced(fs, ino) <==>
      var ip := fs.inodes[ino];
      fs.blocks[ino / 8 + 2].words[16 * (ino % 8)..16 * (ino % 8) + 16] == [ip.meta0, ip.meta1, ip.size] + ip.addrs
  {
    var ws := fs.blocks[ino / 8 + 2].words;
    var k := ino % 8;
    var ip := fs.inodes[ino];
    var row := ws[16 * k..16 * k + 16];
    assert row == [ws[16 * k], ws[16 * k + 1], ws[16 * k + 2]] + ws[16 * k + 3..16 * k + 16];
    assert row[3..] == ws[16 * k + 3..16 * k + 16];
    if row == [ip.meta0, ip.meta1, ip.size] + ip.addrs {
      assert row[3..] == ip.addrs && row[0] == ip.meta0 && row[1] == ip.meta1 && row[2] == ip.size;
    }
  }

  /** What commit_trans has put on the disk when its header is written: the count, the
      home sectors, and from the next sector on their new contents in that order. */
  lemma CommitPlace(g: Log.Geometry, t: Log.Txn, i: nat)
    requires Log.Open(g, t) && i < |t.secs|
    ensures Log.CommitImage(g, t, 0)[g.start].words[0] == |t.secs|
    ensures Log.CommitImage(g, t, 0)[g.start].words[1 + i] == t.secs[i]
    ensures Log.CommitImage(g, t, 0)[g.start + 1 + i] == Log.View(t, t.secs[i])
  {
    assert Log.SlotHolds(g, t, i);
  }

  lemma {:induction false} InstallPlace(g: Log.Geometry, d: Log.Disk, k: nat, i: nat)
    requires Log.Recoverable(g, d) && i < k <= d[g.start].words[0] <= 10
    requires forall j :: 1 + i < j <= k ==> d[g.start].words[j] != d[g.start].words[1 + i]
    ensures Log.HeadSector(d[g.start], i) < |d|
    ensures Log.Install(g, d, k)[d[g.start].words[1 + i]] == d[g.start + 1 + i]
  {
    assert Log.HeadSector(d[g.start], i) < g.start;
    if i < k - 1 {
      InstallPlace(g, d, k - 1, i);
      assert d[g.start].words[k] == Log.HeadSector(d[g.start], k - 1);
    }
  }

  /** What recover_from_log makes of a header: word 0 counts the blocks, and the one in
      sector start + 1 + i goes to the sector in word 1 + i, unless a later one does. */
  lemma RecoverPlace(g: Log.Geometry, d: Log.Disk, i: nat)
    requires Log.Recoverable(g, d) && i < d[g.start].words[0]
    requires forall j :: 1 + i < j <= d[g.start].words[0] && j < 128 ==> d[g.start].words[j] != d[g.start].words[1 + i]
    ensures d[g.start].words[1 + i] < g.start
    ensures Log.Recover(g, d)[d[g.start].words[1 + i]] == d[g.start + 1 + i]
    ensures Log.Recover(g, d)[g.start].words[0] == 0
  {
    assert Log.HeadSector(d[g.start], i) < g.start;
    InstallPlace(g, d, d[g.start].words[0], i);
  }
}
