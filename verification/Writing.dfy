/** What writei and filewrite do to the file system, as functions of its state: the
    bytes they store, the free sectors they take, and the sectors they log. */
module Writing {
  import opened Blocks
  import opened BlockTree
  import opened Files
  import opened Supply
  import opened Options
  import Log

  lemma InodeCount(fs: Fs)
    requires Owned(fs)
    ensures |fs.inodes| == fs.ninodes
  {
  }

  lemma SliceMore(c: seq<Byte>, i: nat, j: nat, k: nat)
    requires i <= j <= k <= |c|
    ensures c[i..j] + c[j..k] == c[i..k]
  {
  }

  const UINT: nat := 0x1_0000_0000

  /** The bytes one transaction of filewrite may write. */
  const MAXCHUNK: nat := 1536

  /** Half of the blocks that fit in the log besides the inode, an indirect block and
      two more for unaligned ends. */
  lemma MaxChunk()
    ensures MAXCHUNK == (Log.LOGSIZE - 1 - 1 - 2) / 2 * BSIZE
  {
  }

  /** Panicked: balloc found no free sector, or log_write no room. Overwrote: the
      transaction wrote on the log's own sectors, and no promise about the disk holds
      from there on. */
  datatype WriteResult = Written(n: nat) | Refused | Panicked | Overwrote

  /** writei's two guards, with 32-bit addition. */
  predicate Refuses(size: nat, off: nat, n: nat) {
    off > size || (off + n) % UINT < off || (off + n) % UINT > MAXFILE * BSIZE
  }

  lemma NoWrap(off: nat, n: nat)
    requires off < UINT && n < UINT && (off + n) % UINT >= off && (off + n) % UINT <= MAXFILE * BSIZE
    ensures off + n <= MAXFILE * BSIZE
  {
  }

  /** The guard is wrap-around proof: writei refuses exactly a start beyond the end of the
      file and an end beyond 16650 blocks. */
  lemma RefusesIff(size: nat, off: nat, n: nat)
    requires size <= MAXFILE * BSIZE && off < UINT && n < UINT
    ensures Refuses(size, off, n) <==> off > size || off + n > 16650 * 512
  {
    if off + n >= UINT { assert (off + n) % UINT == off + n - UINT; }
  }

  predicate Aligned(pos: nat) { pos % BSIZE == 0 }

  /** How many bytes one iteration of writei moves: up to the end of the block. */
  function ChunkLength(pos: nat, left: nat): (m: nat)
    requires left > 0
    ensures 0 < m <= left && pos % BSIZE + m <= BSIZE
    ensures m == left || Aligned(pos + m)
  {
    if left < BSIZE - pos % BSIZE then left else BSIZE - pos % BSIZE
  }

  /** The first block after the `n` bytes at `off`. */
  function EndBlock(off: nat, n: nat): (b: nat)
    ensures off / BSIZE <= b
  {
    if n == 0 then off / BSIZE else (off + n - 1) / BSIZE + 1
  }

  /** What one iteration of writei does; None if bmap panics. */
  function WriteStep(v: Fs, ino: nat, pos: nat, chunk: seq<Byte>): (r: Option<Fs>)
    requires Owned(v) && ino < v.ninodes && pos / BSIZE < MAXFILE && pos % BSIZE + |chunk| <= BSIZE
    ensures r.Some? ==> Owned(r.value) && r.value.ninodes == v.ninodes
  {
    var f := BlockTree.Bmap(v, ino, pos / BSIZE);
    if f.None? then None
    else
      StepFacts(v, f.value, ino, pos);
      StoreBytesOwned(f.value, ino, pos, chunk);
      Some(StoreBytes(f.value, ino, pos, chunk))
  }

  /** What it logs. */
  ghost function StepTouched(v: Fs, ino: nat, bn: nat): (t: set<nat>)
    requires Owned(v) && ino < v.ninodes && bn < MAXFILE
  {
    var f := BlockTree.Bmap(v, ino, bn);
    if f.None? then {} else ReachTouched(v, SlotOf(ino, bn)) + {MapOf(f.value, ino, bn) as nat}
  }

  lemma StepFacts(v: Fs, r: Fs, ino: nat, pos: nat)
    requires Owned(v) && ino < v.ninodes && pos / BSIZE < MAXFILE && BlockTree.Bmap(v, ino, pos / BSIZE) == Some(r)
    ensures Owned(r) && r.ninodes == v.ninodes && InFile(r, ino, pos) && MapOf(r, ino, pos / BSIZE) < r.size
  {
    assert InRange(r, SlotOf(ino, pos / BSIZE));
    assert Marked(r, MapOf(r, ino, pos / BSIZE));
  }

  lemma StepWrote(v: Fs, w: Fs, ino: nat, pos: nat, chunk: seq<Byte>)
    requires Owned(v) && ino < v.ninodes && pos / BSIZE < MAXFILE && pos % BSIZE + |chunk| <= BSIZE
    requires WriteStep(v, ino, pos, chunk) == Some(w)
    ensures Wrote(v, w, ino, pos, chunk)
    ensures MapOf(v, ino, pos / BSIZE) != 0 ==> w.inodes == v.inodes
  {
    WroteBlock(v, BlockTree.Bmap(v, ino, pos / BSIZE).value, ino, pos, chunk);
  }

  /** writei's loop from `pos` on; None if it runs out of sectors. */
  function WriteData(v: Fs, ino: nat, pos: nat, rest: seq<Byte>): (r: Option<Fs>)
    requires Owned(v) && ino < v.ninodes && pos + |rest| <= MAXFILE * BSIZE
    ensures r.Some? ==> Owned(r.value) && r.value.ninodes == v.ninodes
    decreases |rest|
  {
    if rest == [] then Some(v)
    else
      var m := ChunkLength(pos, |rest|);
      var w := WriteStep(v, ino, pos, rest[..m]);
      if w.None? then None else WriteData(w.value, ino, pos + m, rest[m..])
  }

  /** All sectors it logs. */
  ghost function DataTouched(v: Fs, ino: nat, pos: nat, rest: seq<Byte>): (t: set<nat>)
    requires Owned(v) && ino < v.ninodes && pos + |rest| <= MAXFILE * BSIZE
    decreases |rest|
  {
    if rest == [] then {}
    else
      var m := ChunkLength(pos, |rest|);
      var w := WriteStep(v, ino, pos, rest[..m]);
      if w.None? then {} else StepTouched(v, ino, pos / BSIZE) + DataTouched(w.value, ino, pos + m, rest[m..])
  }

  // ------------------------------------------- sectors taken, sectors logged

  /** There are free sectors for all empty slots on the way to the `n` bytes at
      `off`. */
  ghost predicate Enough(fs: Fs, ino: nat, off: nat, n: nat)
    requires Shaped(fs) && ino < |fs.inodes|
  {
    n > 0 && EndBlock(off, n) <= MAXFILE ==> BlocksEnough(fs, ino, off / BSIZE, EndBlock(off, n))
  }

  ghost predicate BlocksEnough(fs: Fs, ino: nat, lo: nat, hi: nat)
    requires Shaped(fs) && hi <= MAXFILE
  {
    |EmptyIn(fs, ino, lo, hi)| <= |Free(fs, 0)|
  }

  lemma BlocksEnoughLess(fs: Fs, ino: nat, lo: nat, hi: nat, hi': nat)
    requires Shaped(fs) && hi <= hi' <= MAXFILE && !BlocksEnough(fs, ino, lo, hi)
    ensures !BlocksEnough(fs, ino, lo, hi')
  {
    EmptyInMore(fs, ino, lo, hi, hi');
  }

  /** From `fs` to `v`, the slots on the way to blocks lo .. hi were filled. */
  ghost predicate TookTo(fs: Fs, v: Fs, ino: nat, lo: nat, hi: nat) {
    lo <= hi <= MAXFILE && ino < |fs.inodes| && Took(fs, v, EmptyIn(fs, ino, lo, hi))
  }

  /** The sectors logged for blocks lo .. hi: theirs, those of the indirect blocks
      that received a pointer, and the bitmap's. */
  ghost function RangeSectors(fs: Fs, v: Fs, ino: nat, lo: nat, hi: nat): (r: set<nat>)
    requires TookTo(fs, v, ino, lo, hi)
  {
    var e := EmptyIn(fs, ino, lo, hi);
    Bitmaps(fs, Free(fs, 0)[..|e|]) + Sectors(v, RangeSlots(ino, lo, hi) + ParentsOf(e))
  }

  /** After one iteration of writei at `pos` the next one starts a block. */
  lemma NextBlock(pos: nat, left: nat)
    requires left > 0 && pos + left <= MAXFILE * BSIZE
    ensures var m := ChunkLength(pos, left);
      && pos / BSIZE < MAXFILE
      && (m < left ==> (pos + m) / BSIZE == pos / BSIZE + 1 && EndBlock(pos + m, left - m) == EndBlock(pos, left))
      && (m == left ==> EndBlock(pos, left) == pos / BSIZE + 1)
      && pos / BSIZE + 1 <= EndBlock(pos, left) <= MAXFILE
  {
  }

  lemma StepEnough(fs: Fs, v: Fs, ino: nat, lo: nat, k: nat, pos: nat, chunk: seq<Byte>)
    requires Owned(v) && ino < v.ninodes && k == pos / BSIZE < MAXFILE && pos % BSIZE + |chunk| <= BSIZE
    requires TookTo(fs, v, ino, lo, k)
    ensures WriteStep(v, ino, pos, chunk).Some? <==> BlocksEnough(fs, ino, lo, k + 1)
  {
    RangeTook(fs, v, ino, lo, k);
  }

  lemma StepTook(fs: Fs, v: Fs, w: Fs, ino: nat, lo: nat, k: nat, pos: nat, chunk: seq<Byte>)
    requires Owned(v) && ino < v.ninodes && k == pos / BSIZE < MAXFILE && pos % BSIZE + |chunk| <= BSIZE
    requires TookTo(fs, v, ino, lo, k) && WriteStep(v, ino, pos, chunk) == Some(w)
    ensures TookTo(fs, w, ino, lo, k + 1)
    ensures RangeSectors(fs, v, ino, lo, k) + StepTouched(v, ino, k) == RangeSectors(fs, w, ino, lo, k + 1)
  {
    RangeTook(fs, v, ino, lo, k);
    var r, x, t := BlockTree.Bmap(v, ino, k).value, SlotOf(ino, k), RangeSectors(fs, v, ino, lo, k);
    StepFacts(v, r, ino, pos);
    StoreTook(r, ino, pos, chunk);
    RangeLog(t, fs, v, r, w, ino, lo, k);
    UnionAssoc(t, ReachTouched(v, x), {Ptr(r, x) as nat});
  }

  lemma NothingLogged(fs: Fs, v: Fs, ino: nat, lo: nat)
    requires Owned(fs) && ino < |fs.inodes| && lo <= MAXFILE && v == fs
    ensures TookTo(fs, v, ino, lo, lo) && RangeSectors(fs, v, ino, lo, lo) == {}
  {
    EmptyInNone(fs, ino, lo);
    TookNothing(fs);
    NoBitmap(fs, Free(fs, 0));
  }

  lemma UnionAssoc(a: set<nat>, b: set<nat>, c: set<nat>)
    ensures a + (b + c) == a + b + c
  {
  }

  /** Bytes in two adjacent stretches: the second finds the slots of the first
      filled. */
  lemma EnoughMore(fs: Fs, v: Fs, ino: nat, off: nat, i: nat, n: nat)
    requires Owned(v) && ino < |v.inodes| && n > 0
    requires TookTo(fs, v, ino, off / BSIZE, EndBlock(off, i)) && EndBlock(off + i, n) <= MAXFILE
    ensures Enough(v, ino, off + i, n) <==> Enough(fs, ino, off, i + n)
  {
    EndBlockMore(off, i, n);
    EmptyInJoin(fs, v, ino, off / BSIZE, EndBlock(off, i), (off + i) / BSIZE, EndBlock(off + i, n));
  }

  lemma EndBlockMore(off: nat, i: nat, n: nat)
    requires n > 0
    ensures EndBlock(off, i + n) == EndBlock(off + i, n)
    ensures off / BSIZE <= (off + i) / BSIZE <= EndBlock(off, i) <= EndBlock(off + i, n)
  {
  }

  lemma TookMoreBlocks(fs: Fs, v: Fs, w: Fs, ino: nat, lo: nat, hi: nat, lo': nat, hi': nat)
    requires lo <= lo' <= hi <= hi' && TookTo(fs, v, ino, lo, hi) && TookTo(v, w, ino, lo', hi')
    ensures TookTo(fs, w, ino, lo, hi')
  {
    EmptyInJoin(fs, v, ino, lo, hi, lo', hi');
    TookMore(fs, v, w, EmptyIn(fs, ino, lo, hi), EmptyIn(v, ino, lo', hi'));
  }

  // ------------------------------------------------------------------- writei

  /** writei's loop fills the empty slots on its way and logs exactly the sectors of
      its range, or stops exactly because there are too few free sectors. */
  lemma {:induction false} DataTook(fs: Fs, v: Fs, ino: nat, lo: nat, pos: nat, rest: seq<Byte>)
    requires Owned(fs) && Owned(v) && ino < v.ninodes && rest != [] && pos + |rest| <= MAXFILE * BSIZE
    requires TookTo(fs, v, ino, lo, pos / BSIZE) && EndBlock(pos, |rest|) <= MAXFILE
    ensures WriteData(v, ino, pos, rest).Some? <==> BlocksEnough(fs, ino, lo, EndBlock(pos, |rest|))
    ensures WriteData(v, ino, pos, rest).Some? ==>
      && TookTo(fs, WriteData(v, ino, pos, rest).value, ino, lo, EndBlock(pos, |rest|))
      && RangeSectors(fs, v, ino, lo, pos / BSIZE) + DataTouched(v, ino, pos, rest)
      == RangeSectors(fs, WriteData(v, ino, pos, rest).value, ino, lo, EndBlock(pos, |rest|))
    decreases |rest|
  {
    hide WriteStep, StepTouched, RangeSectors, BlocksEnough, Took, EmptyIn;
    var m, k := ChunkLength(pos, |rest|), pos / BSIZE;
    NextBlock(pos, |rest|);
    StepEnough(fs, v, ino, lo, k, pos, rest[..m]);
    var w := WriteStep(v, ino, pos, rest[..m]);
    if w.Some? { StepTook(fs, v, w.value, ino, lo, k, pos, rest[..m]); }
    if w.None? {
      BlocksEnoughLess(fs, ino, lo, k + 1, EndBlock(pos, |rest|));
    } else if m == |rest| {
      assert rest[m..] == [];
      UnionNone(StepTouched(v, ino, k));
    } else {
      DataTook(fs, w.value, ino, lo, pos + m, rest[m..]);
      UnionAssoc(RangeSectors(fs, v, ino, lo, k), StepTouched(v, ino, k), DataTouched(w.value, ino, pos + m, rest[m..]));
    }
  }

  lemma UnionNone(a: set<nat>)
    ensures a + {} == a
  {
  }

  lemma DataEnough(fs: Fs, ino: nat, off: nat, src: seq<Byte>)
    requires Owned(fs) && ino < fs.ninodes && off + |src| <= MAXFILE * BSIZE
    ensures WriteData(fs, ino, off, src).Some? <==> Enough(fs, ino, off, |src|)
  {
    if src != [] {
      NextBlock(off, |src|);
      NothingLogged(fs, fs, ino, off / BSIZE);
      DataTook(fs, fs, ino, off / BSIZE, off, src);
    }
  }

  lemma {:induction false} DataWroteFrom(fs: Fs, v: Fs, w: Fs, ino: nat, off: nat, s: seq<Byte>, pos: nat, rest: seq<Byte>)
    requires Consistent(fs) && WroteSoFar(fs, v, ino, off, s) && ino < fs.ninodes && pos == off + |s|
    requires Owned(v) && ino < v.ninodes && pos + |rest| <= MAXFILE * BSIZE && WriteData(v, ino, pos, rest) == Some(w)
    ensures WroteSoFar(fs, w, ino, off, s + rest)
    decreases |rest|
  {
    hide WriteStep, Wrote, Mapped, Synced;
    if rest == [] {
      assert s + rest == s;
    } else {
      var m := ChunkLength(pos, |rest|);
      NextBlock(pos, |rest|);
      var v', chunk := WriteStep(v, ino, pos, rest[..m]).value, rest[..m];
      StepWrote(v, v', ino, pos, chunk);
      WroteStep(fs, v, v', ino, off, pos, s, chunk);
      DataWroteFrom(fs, v', w, ino, off, s + chunk, pos + m, rest[m..]);
      Split(s, rest, m);
    }
  }

  lemma Split(s: seq<Byte>, rest: seq<Byte>, m: nat)
    requires m <= |rest|
    ensures s + rest[..m] + rest[m..] == s + rest
  {
  }

  lemma DataWrote(fs: Fs, w: Fs, ino: nat, off: nat, src: seq<Byte>)
    requires Consistent(fs) && ino < fs.ninodes && off + |src| <= MAXFILE * BSIZE && WriteData(fs, ino, off, src) == Some(w)
    ensures WroteSoFar(fs, w, ino, off, src)
  {
    hide WriteStep, Owned, Synced, Used, Mapped, Ptr;
    DataWroteFrom(fs, fs, w, ino, off, [], off, src);
    assert [] + src == src;
  }

  ghost predicate WroteSoFar(fs: Fs, v: Fs, ino: nat, off: nat, s: seq<Byte>) {
    && Wrote(fs, v, ino, off, s)
    && off + |s| <= MAXFILE * BSIZE
    && (v.inodes[ino] == fs.inodes[ino] || (|s| > 0 && off + |s| > fs.inodes[ino].size))
  }

  lemma WroteStep(fs: Fs, v: Fs, w: Fs, ino: nat, off: nat, pos: nat, s: seq<Byte>, t: seq<Byte>)
    requires Consistent(fs) && WroteSoFar(fs, v, ino, off, s)
    requires pos == off + |s| && |t| > 0 && pos + |t| <= MAXFILE * BSIZE
    requires Wrote(v, w, ino, pos, t)
    requires MapOf(v, ino, pos / BSIZE) != 0 ==> w.inodes == v.inodes
    ensures WroteSoFar(fs, w, ino, off, s + t)
  {
    hide MapOf, Synced, Mapped, Consistent, Ptr, Used;
    assert Wrote(fs, w, ino, off, s + t) by { WroteMore(fs, v, w, ino, off, s, t); }
    assert w.inodes[ino] == fs.inodes[ino] || pos + |t| > fs.inodes[ino].size by {
      WritingInode(fs, v, w, ino, off, pos, s, t);
    }
  }

  lemma WritingInode(fs: Fs, v: Fs, w: Fs, ino: nat, off: nat, pos: nat, s: seq<Byte>, t: seq<Byte>)
    requires Consistent(fs) && Wrote(fs, v, ino, off, s) && Wrote(v, w, ino, pos, t) && |t| > 0
    requires pos == off + |s| < MAXFILE * BSIZE
    requires v.inodes[ino] == fs.inodes[ino] || (|s| > 0 && pos > fs.inodes[ino].size)
    requires MapOf(v, ino, pos / BSIZE) != 0 ==> w.inodes == v.inodes
    ensures w.inodes[ino] == fs.inodes[ino] || pos + |t| > fs.inodes[ino].size
  {
    var bn := pos / BSIZE;
    assert Mapped(fs, ino);
    assert bn * BSIZE <= pos;
    assert bn * BSIZE < fs.inodes[ino].size ==> MapOf(v, ino, bn) == MapOf(fs, ino, bn) != 0;
  }

  /** What one writei does to the sectors and adds to the log: what its loop logs, and
      at the very end, if the file grew, the inode's sector. */
  ghost predicate WriteLogged(l: seq<Log.Write>, m: seq<Log.Write>, fs: Fs, r: Fs, ino: nat, off: nat, src: seq<Byte>) {
    && Owned(fs) && ino < fs.ninodes && off + |src| <= MAXFILE * BSIZE
    && var w := WriteData(fs, ino, off, src);
       var grew := src != [] && off + |src| > fs.inodes[ino].size;
       var k := if grew then |m| - 1 else |m|;
       && w.Some? && r == Finish(w.value, ino, off, |src|)
       && 0 <= k && (grew ==> m[k].sector == IBlock(ino))
       && Log.SectorsOf(m[..k]) == Log.SectorsOf(l) + DataTouched(fs, ino, off, src)
  }

  /** Everything a writei does that is not stopped: `l` and `m` are the writes logged
      before and after it. */
  ghost predicate WroteAs(l: seq<Log.Write>, fs: Fs, m: seq<Log.Write>, r: Fs, ino: nat, off: nat, src: seq<Byte>) {
    && WriteLogged(l, m, fs, r, ino, off, src) && off <= |Content(fs, ino)|
    && Consistent(r) && OthersKept(fs, r, ino) && Content(r, ino) == Overwrite(Content(fs, ino), off, src)
  }

  lemma ResizeUsed(w: Fs, ino: nat, size: Word)
    requires Shaped(w) && ino < w.ninodes
    ensures var r := Iupdate(SetSize(w, ino, size), ino);
      Shaped(r) && r.size == w.size && forall c :: 0 <= c < w.size ==> Used(r, c) == Used(w, c)
  {
    hide BitAt;
    var r := Iupdate(SetSize(w, ino, size), ino);
    forall c | 0 <= c < w.size ensures Used(r, c) == Used(w, c) { assert BBlock(w, c) > IBlock(ino); }
  }

  lemma FinishTook(w: Fs, ino: nat, off: nat, n: nat)
    requires Owned(w) && ino < w.ninodes && off + n <= MAXFILE * BSIZE
    ensures Took(w, Finish(w, ino, off, n), {})
  {
    hide Used, Free, Ptr;
    TookNothing(w);
    if n > 0 && off + n > w.inodes[ino].size {
      var r := Finish(w, ino, off, n);
      ResizeOwned(w, ino, off + n);
      ResizeUsed(w, ino, off + n);
      FreeSame(w, r, 0);
    }
  }

  /** The sectors a writei logs, from the states before and after it. */
  lemma WriteSectors(l: seq<Log.Write>, m: seq<Log.Write>, fs: Fs, r: Fs, ino: nat, off: nat, src: seq<Byte>)
    requires src != [] && WriteLogged(l, m, fs, r, ino, off, src)
    ensures TookTo(fs, r, ino, off / BSIZE, EndBlock(off, |src|))
    ensures DataTouched(fs, ino, off, src) == RangeSectors(fs, r, ino, off / BSIZE, EndBlock(off, |src|))
  {
    var w, lo, hi := WriteData(fs, ino, off, src).value, off / BSIZE, EndBlock(off, |src|);
    NextBlock(off, |src|);
    NothingLogged(fs, fs, ino, lo);
    DataTook(fs, fs, ino, lo, off, src);
    UnionNone(DataTouched(fs, ino, off, src));
    FinishTook(w, ino, off, |src|);
    FinishLogged(fs, w, r, ino, lo, hi);
  }

  lemma FinishLogged(fs: Fs, w: Fs, r: Fs, ino: nat, lo: nat, hi: nat)
    requires TookTo(fs, w, ino, lo, hi) && Took(w, r, {})
    ensures TookTo(fs, r, ino, lo, hi)
    ensures RangeSectors(fs, r, ino, lo, hi) == RangeSectors(fs, w, ino, lo, hi)
  {
    var e := EmptyIn(fs, ino, lo, hi);
    TookMore(fs, w, r, e, {});
    assert e + {} == e;
    TookFull(fs, w, e);
    RangeFull(fs, w, ino, lo, hi);
    SectorsKept(w, r, RangeSlots(ino, lo, hi) + ParentsOf(e), {});
  }

  lemma WriteContent(fs: Fs, w: Fs, ino: nat, off: nat, src: seq<Byte>)
    requires Consistent(fs) && ino < fs.ninodes && off <= fs.inodes[ino].size && WroteSoFar(fs, w, ino, off, src)
    ensures var r := Finish(w, ino, off, |src|);
            && Consistent(r) && OthersKept(fs, r, ino)
            && Content(r, ino) == Overwrite(Content(fs, ino), off, src)
  {
    assert AllStored(fs, w, ino, off, src);
    FinishConsistent(fs, w, ino, off, src);
    FinishContent(fs, w, ino, off, src, ino);
    forall i | 0 <= i < fs.ninodes && i != ino ensures Content(Finish(w, ino, off, |src|), i) == Content(fs, i) {
      FinishContent(fs, w, ino, off, src, i);
    }
  }

  // ---------------------------------------------------------------- filewrite

  /** One transaction of filewrite: the states around it, what it wrote where, and
      what it passed to log_write. */
  datatype Txn = Txn(before: Fs, after: Fs, off: nat, src: seq<Byte>, writes: seq<Log.Write>)

  ghost predicate OthersKept(fs: Fs, r: Fs, ino: nat) {
    && r.ninodes == fs.ninodes && |r.inodes| == |fs.inodes|
    && forall i :: 0 <= i < |fs.inodes| && i != ino ==> Content(r, i) == Content(fs, i)
  }

  /** A transaction leads from one consistent system to another, in which its bytes
      have been written, and its writes are all that changed on disk. */
  ghost predicate ChunkLogged(t: Txn, ino: nat) {
    && Consistent(t.before) && Consistent(t.after) && ino < t.before.ninodes && OthersKept(t.before, t.after, ino)
    && 0 < |t.src| <= MAXCHUNK && t.off <= t.before.inodes[ino].size && t.off + |t.src| <= MAXFILE * BSIZE
    && Content(t.after, ino) == Overwrite(Content(t.before, ino), t.off, t.src)
    && t.after.blocks == Log.Apply(t.before.blocks, t.writes)
    && WriteLogged([], t.writes, t.before, t.after, ino, t.off, t.src)
  }

  ghost predicate ChunkDone(t: Txn, fs: Fs, w: Fs, ino: nat, pos: nat, chunk: seq<Byte>) {
    t.before == fs && t.after == w && t.off == pos && t.src == chunk && ChunkLogged(t, ino)
  }

  /** The transactions of filewrite, each after `done` was written. */
  datatype Txns = NoTxns | AndThen(prev: Txns, done: seq<Byte>, t: Txn)

  /** They lead from `fs` to `v` and write the stretches of `done`, which starts at
      `off`, one after the other. */
  ghost predicate Chained(fs: Fs, v: Fs, ino: nat, off: nat, done: seq<Byte>, txns: Txns)
    decreases txns
  {
    if txns.NoTxns? then v == fs && done == []
    else
      && done == txns.done + txns.t.src
      && ChunkDone(txns.t, txns.t.before, v, ino, off + |txns.done|, txns.t.src)
      && Chained(fs, txns.t.before, ino, off, txns.done, txns.prev)
  }

  /** filewrite so far: `done` is in the file at `off`, all other files are as they
      were, the slots on the way are filled, and the transactions are in `txns`. */
  ghost predicate Progress(fs: Fs, v: Fs, ino: nat, off: nat, done: seq<Byte>, txns: Txns) {
    && Chained(fs, v, ino, off, done, txns)
    && Consistent(v) && OthersKept(fs, v, ino) && ino < |fs.inodes|
    && Spliced(Content(fs, ino), Content(v, ino), off, done)
    && (Whole(fs.blocks) ==> Whole(v.blocks))
  }

  lemma {:induction false} ChainedProgress(fs: Fs, v: Fs, ino: nat, off: nat, done: seq<Byte>, txns: Txns)
    requires Consistent(fs) && ino < fs.ninodes && Chained(fs, v, ino, off, done, txns)
    ensures Progress(fs, v, ino, off, done, txns)
    decreases txns
  {
    if txns.AndThen? {
      ChainedProgress(fs, txns.t.before, ino, off, txns.done, txns.prev);
      TxnProgress(fs, txns.t, ino, off, txns.done);
    }
  }

  lemma TxnProgress(fs: Fs, t: Txn, ino: nat, off: nat, done: seq<Byte>)
    requires ChunkLogged(t, ino) && t.off == off + |done| && ino < |fs.inodes| && OthersKept(fs, t.before, ino)
    requires Spliced(Content(fs, ino), Content(t.before, ino), off, done)
    ensures OthersKept(fs, t.after, ino)
    ensures Spliced(Content(fs, ino), Content(t.after, ino), off, done + t.src)
    ensures Whole(t.before.blocks) ==> Whole(t.after.blocks)
  {
    hide Ptr, WriteData, Finish, DataTouched, WriteLogged, Owned, Consistent;
    SplicedMore(Content(fs, ino), Content(t.before, ino), Content(t.after, ino), off, done, t.src);
    if Whole(t.before.blocks) { Log.ApplyWhole(t.before.blocks, t.writes); }
  }

  lemma ChunkTook(t: Txn, ino: nat)
    requires ChunkLogged(t, ino)
    ensures TookTo(t.before, t.after, ino, t.off / BSIZE, EndBlock(t.off, |t.src|))
  {
    WriteSectors([], t.writes, t.before, t.after, ino, t.off, t.src);
  }

  lemma TookMoreBytes(fs: Fs, v: Fs, w: Fs, ino: nat, off: nat, i: nat, n: nat, pos: nat, all: nat)
    requires n > 0 && pos == off + i && all == i + n
    requires TookTo(fs, v, ino, off / BSIZE, EndBlock(off, i)) && TookTo(v, w, ino, pos / BSIZE, EndBlock(pos, n))
    ensures TookTo(fs, w, ino, off / BSIZE, EndBlock(off, all))
  {
    hide Took, TookTo, Ptr, EmptyIn, Owned, EndBlock, Used, Free;
    EndBlockMore(off, i, n);
    TookMoreBlocks(fs, v, w, ino, off / BSIZE, EndBlock(off, i), pos / BSIZE, EndBlock(off, all));
  }

  /** The transactions fill the slots on the way to `done`. */
  lemma {:induction false} ChainedTook(fs: Fs, v: Fs, ino: nat, off: nat, done: seq<Byte>, txns: Txns)
    requires Owned(fs) && ino < |fs.inodes| && off <= MAXFILE * BSIZE && Chained(fs, v, ino, off, done, txns)
    ensures TookTo(fs, v, ino, off / BSIZE, EndBlock(off, |done|))
    decreases txns
  {
    if txns.NoTxns? {
      NothingLogged(fs, v, ino, off / BSIZE);
    } else {
      var t := txns.t;
      ChainedTook(fs, t.before, ino, off, txns.done, txns.prev);
      ChunkTook(t, ino);
      TookMoreBytes(fs, t.before, t.after, ino, off, |txns.done|, |t.src|, t.off, |done|);
    }
  }

  /** File contents `d` are `c` with `s` written at `off`; nothing at all happens
      for an empty `s`. */
  ghost predicate Spliced(c: seq<Byte>, d: seq<Byte>, off: nat, s: seq<Byte>) {
    if s == [] then d == c else off <= |c| && d == Overwrite(c, off, s)
  }

  lemma SplicedMore(c: seq<Byte>, d: seq<Byte>, e: seq<Byte>, off: nat, s: seq<Byte>, t: seq<Byte>)
    requires Spliced(c, d, off, s) && Spliced(d, e, off + |s|, t) && t != []
    ensures Spliced(c, e, off, s + t)
  {
    if s == [] {
      assert s + t == t;
    } else {
      OverwriteMore(c, off, s, t);
    }
  }

  /** Writing a stretch and then the stretch after it writes both. */
  lemma OverwriteMore(c: seq<Byte>, off: nat, s: seq<Byte>, t: seq<Byte>)
    requires off <= |c|
    ensures off + |s| <= |Overwrite(c, off, s)|
    ensures Overwrite(Overwrite(c, off, s), off + |s|, t) == Overwrite(c, off, s + t)
  {
  }

  lemma ChainedSize(fs: Fs, v: Fs, ino: nat, off: nat, done: seq<Byte>, txns: Txns)
    requires Consistent(fs) && Consistent(v) && ino < fs.ninodes && Chained(fs, v, ino, off, done, txns)
    ensures |v.inodes| == |fs.inodes| && v.inodes[ino].size <= MAXFILE * BSIZE && fs.inodes[ino].size <= MAXFILE * BSIZE
    ensures done == [] ==> v == fs
    ensures done != [] ==> off <= fs.inodes[ino].size
    ensures done != [] ==>
      v.inodes[ino].size == if off + |done| > fs.inodes[ino].size then off + |done| else fs.inodes[ino].size
  {
    ChainedProgress(fs, v, ino, off, done, txns);
    assert Mapped(v, ino) && Mapped(fs, ino);
    if done != [] { OverwriteReads(Content(fs, ino), off, done); }
  }

  /** The bytes filewrite gets to: all of them, or whole chunks that end within the
      largest file; none if it starts beyond the end. */
  function Accepted(size: nat, off: nat, n: nat): (a: nat) {
    if off > size then 0
    else if off + n <= MAXFILE * BSIZE then n
    else if off > MAXFILE * BSIZE then 0
    else (MAXFILE * BSIZE - off) / MAXCHUNK * MAXCHUNK
  }

  /** filewrite takes all bytes or as many whole chunks of three blocks as fit. */
  lemma AcceptedMost(size: nat, off: nat, n: nat)
    requires off <= size <= MAXFILE * BSIZE
    ensures var a := Accepted(size, off, n);
      if off + n <= 16650 * 512 then a == n else a % 1536 == 0 && off + a <= 16650 * 512 < off + a + 1536
  {
    var room := 16650 * 512 - off;
    assert room / 1536 * 1536 + room % 1536 == room;
    assert room / 1536 * 1536 % 1536 == 0;
  }

  lemma AcceptedStart(fs: Fs, ino: nat, off: nat, n: nat)
    requires Consistent(fs) && ino < fs.ninodes
    ensures Accepted(fs.inodes[ino].size, off, n) <= n
    ensures Accepted(fs.inodes[ino].size, off, n) > 0 ==> off + Accepted(fs.inodes[ino].size, off, n) <= MAXFILE * BSIZE
  {
    assert Mapped(fs, ino);
  }

  lemma AcceptedStep(size: nat, now: nat, off: nat, n: nat, i: nat, n1: nat)
    requires i < n && i <= Accepted(size, off, n) && i % MAXCHUNK == 0
    requires now <= MAXFILE * BSIZE && size <= MAXFILE * BSIZE && off < UINT
    requires if i == 0 then now == size else off <= size && off + i <= now
    requires n1 == if n - i > MAXCHUNK then MAXCHUNK else n - i
    ensures Refuses(now, off + i, n1) <==> i == Accepted(size, off, n)
    ensures !Refuses(now, off + i, n1) ==> i + n1 <= Accepted(size, off, n)
    ensures i + n1 == n || (i + n1) % MAXCHUNK == 0
  {
    NextMultiple(i);
    if off <= size {
      SmallSum(off + i, n1);
      if off + n > MAXFILE * BSIZE { WholeChunks(i, n, n1, MAXFILE * BSIZE - off); }
    }
  }

  lemma SmallSum(a: nat, b: nat)
    requires a <= MAXFILE * BSIZE && b <= MAXCHUNK
    ensures (a + b) % UINT == a + b
  {
  }

  lemma NextMultiple(i: nat)
    requires i % MAXCHUNK == 0
    ensures (i + MAXCHUNK) % MAXCHUNK == 0
  {
  }

  lemma WholeChunks(i: nat, n: nat, n1: nat, x: nat)
    requires i % MAXCHUNK == 0 && i <= x / MAXCHUNK * MAXCHUNK && i < n && x < n
    requires n1 == if n - i > MAXCHUNK then MAXCHUNK else n - i
    ensures i + n1 > x <==> i == x / MAXCHUNK * MAXCHUNK
    ensures i + n1 <= x ==> i + n1 <= x / MAXCHUNK * MAXCHUNK
  {
    var q := i / MAXCHUNK;
    assert i == q * MAXCHUNK;
  }

  lemma BelowSize(fs: Fs, ino: nat, o: nat)
    requires Consistent(fs) && ino < fs.ninodes && o < fs.inodes[ino].size
    ensures InFile(fs, ino, o) && MapOf(fs, ino, o / BSIZE) < fs.size
  {
    assert Mapped(fs, ino);
    assert o / BSIZE * BSIZE <= o;
    assert MapOf(fs, ino, o / BSIZE) != 0;
    assert InRange(fs, SlotOf(ino, o / BSIZE));
    assert Marked(fs, MapOf(fs, ino, o / BSIZE));
  }

  /** Part of one sector is a slice of the file. */
  lemma ReadChunk(fs: Fs, ino: nat, o: nat, m: nat)
    requires Consistent(fs) && ino < fs.ninodes && InFile(fs, ino, o) && MapOf(fs, ino, o / BSIZE) < fs.size
    requires o % BSIZE + m <= BSIZE && o + m <= fs.inodes[ino].size
    ensures fs.blocks[MapOf(fs, ino, o / BSIZE)].bytes[o % BSIZE..o % BSIZE + m] == Content(fs, ino)[o..o + m]
  {
    var s := fs.blocks[MapOf(fs, ino, o / BSIZE)].bytes[o % BSIZE..o % BSIZE + m];
    var t := Content(fs, ino)[o..o + m];
    forall k | 0 <= k < m ensures s[k] == t[k] {
      assert (o + k) / BSIZE == o / BSIZE && (o + k) % BSIZE == o % BSIZE + k;
    }
  }

  /** What the two allocating branches of bmap do to an empty slot. */
  lemma FillEmpty(fs: Fs, x: Slot, b: Word)
    requires Owned(fs) && Fillable(fs, x) && FreeFrom(fs, 0) == Some(b)
    ensures x.Root? ==> Fill(fs, x) == Some(StoreRoot(Alloc(fs, b), x.ino, x.k, b))
    ensures !x.Root? ==> Ptr(fs, Parent(x)) < fs.size
    ensures !x.Root? ==> Fill(fs, x) == Some(StoreEntry(Alloc(fs, b), Ptr(fs, Parent(x)), Index(x), b))
    ensures Fill(fs, x).Some? && Ptr(Fill(fs, x).value, x) == b
  {
    Attachable(fs, x, b);
    if !x.Root? { AllocPtr(fs, b, Parent(x)); }
    AttachPtr(fs, x, b, x);
  }

  /** The bits of sectors b .. b + BPB lie in one bitmap sector. */
  lemma InOneSector(fs: Fs, b: nat)
    requires Shaped(fs) && b < fs.size && b % BPB == 0
    ensures forall c :: b <= c < b + BPB && c < fs.size ==>
      Used(fs, c) == BitAt(fs.blocks[BBlock(fs, b)].bytes, c - b)
  {
    forall c | b <= c < b + BPB && c < fs.size ensures BBlock(fs, c) == BBlock(fs, b) && c % BPB == c - b {
      assert c == b / BPB * BPB + (c - b);
    }
  }

  lemma {:induction false} FreeFromSkip(fs: Fs, k: nat, m: nat)
    requires Shaped(fs) && k <= m <= fs.size
    requires forall c :: k <= c < m ==> Used(fs, c)
    ensures FreeFrom(fs, k) == FreeFrom(fs, m)
    decreases m - k
  {
    if k < m { FreeFromSkip(fs, k + 1, m); }
  }
}
