/** The transaction budget of filewrite: when the log takes a chunk of at most MAXCHUNK
    bytes. The chunk logs its data sectors, the indirect blocks that receive a pointer,
    the bitmap sectors of what it allocates and, if the file grows, the inode's sector;
    it makes log_write panic exactly if the file grows and there are more than eight of
    the others. Whether the log takes all chunks of a filewrite can be seen before the
    first one. */
module Budget {
  import opened Blocks
  import opened BlockTree
  import opened Files
  import opened Supply
  import opened Writing
  import Log

  // -------------------------------------------------------- counting sectors

  /** Different slots hold different sectors. */
  lemma {:induction false} SectorsSize(v: Fs, s: set<Slot>)
    requires Owned(v) && AllFull(v, s)
    ensures |Sectors(v, s)| == |s|
    decreases s
  {
    if s != {} {
      var x :| x in s;
      var rest := s - {x};
      SectorsSize(v, rest);
      assert s == rest + {x};
      SectorsUnion(v, rest, {x});
      OneSector(v, x);
      forall y | y in rest ensures Ptr(v, y) != Ptr(v, x) { assert Apart(v, x, y); }
      assert Ptr(v, x) as nat !in Sectors(v, rest);
    } else {
      assert Sectors(v, s) == {};
    }
  }

  lemma {:induction false} RangeSlotsSize(ino: nat, lo: nat, hi: nat)
    requires lo <= hi <= MAXFILE
    ensures |RangeSlots(ino, lo, hi)| == hi - lo
  {
    hide SlotOf;
    if lo < hi {
      RangeSlotsSize(ino, lo, hi - 1);
      RangeSlotsNext(ino, lo, hi - 1);
      forall bn | lo <= bn < hi - 1 ensures SlotOf(ino, bn) != SlotOf(ino, hi - 1) {
        if SlotOf(ino, bn) == SlotOf(ino, hi - 1) { SlotOfInjective(ino, bn, ino, hi - 1); }
      }
      assert SlotOf(ino, hi - 1) !in RangeSlots(ino, lo, hi - 1);
    } else {
      assert RangeSlots(ino, lo, hi) == {};
    }
  }

  /** Indirect blocks are not file contents. */
  lemma ParentsNotData(ino: nat, lo: nat, hi: nat, e: set<Slot>)
    requires lo <= hi <= MAXFILE
    ensures RangeSlots(ino, lo, hi) !! ParentsOf(e)
  {
    forall y | y in ParentsOf(e) ensures !IsData(y) {
      var x :| x in e && !x.Root? && Parent(x) == y;
    }
    forall y | y in RangeSlots(ino, lo, hi) ensures IsData(y) {
      var bn :| lo <= bn < hi && SlotOf(ino, bn) == y;
    }
  }

  lemma BitmapsApart(fs: Fs, v: Fs, s: seq<Word>, d: set<Slot>)
    requires Owned(fs) && Owned(v) && v.size == fs.size && v.ninodes == fs.ninodes && AllFull(v, d)
    requires forall i :: 0 <= i < |s| ==> s[i] < fs.size
    ensures Bitmaps(fs, s) !! Sectors(v, d)
  {
    forall n: nat | n in Bitmaps(fs, s) ensures n < DataStart(fs) {
      var i :| 0 <= i < |s| && BBlock(fs, s[i]) == n;
    }
    forall n: nat | n in Sectors(v, d) ensures DataStart(fs) <= n {
      var y :| y in d && InRange(v, y) && Ptr(v, y) == n;
      assert Marked(v, Ptr(v, y));
    }
  }

  /** The bitmap sectors of the first `n` free sectors. */
  ghost function BitmapCount(fs: Fs, n: nat): (k: nat)
    requires Shaped(fs) && n <= |Free(fs, 0)|
  {
    |Bitmaps(fs, Free(fs, 0)[..n])|
  }

  /** How many sectors a write of blocks lo .. hi logs, the inode's aside: one for
      every block, one for every indirect block that receives a pointer, and the
      bitmap sectors of what it allocates. All of it is known before the write. */
  ghost function RangeCount(fs: Fs, ino: nat, lo: nat, hi: nat): (k: nat)
    requires Shaped(fs) && lo <= hi <= MAXFILE && BlocksEnough(fs, ino, lo, hi)
  {
    var e := EmptyIn(fs, ino, lo, hi);
    (hi - lo) + |ParentsOf(e)| + BitmapCount(fs, |e|)
  }

  lemma RangeSectorsSize(fs: Fs, v: Fs, ino: nat, lo: nat, hi: nat)
    requires TookTo(fs, v, ino, lo, hi)
    ensures BlocksEnough(fs, ino, lo, hi)
    ensures |RangeSectors(fs, v, ino, lo, hi)| == RangeCount(fs, ino, lo, hi)
  {
    hide Filled, Placed, Used, Free;
    var e := EmptyIn(fs, ino, lo, hi);
    var d := RangeSlots(ino, lo, hi);
    var s := Free(fs, 0)[..|e|];
    TookFull(fs, v, e);
    RangeFull(fs, v, ino, lo, hi);
    SectorsSize(v, d + ParentsOf(e));
    RangeSlotsSize(ino, lo, hi);
    ParentsNotData(ino, lo, hi, e);
    assert |d + ParentsOf(e)| == |d| + |ParentsOf(e)|;
    FreeInside(fs, |e|);
    BitmapsApart(fs, v, s, d + ParentsOf(e));
    assert |Bitmaps(fs, s) + Sectors(v, d + ParentsOf(e))| == |Bitmaps(fs, s)| + |Sectors(v, d + ParentsOf(e))|;
  }

  lemma FreeInside(fs: Fs, n: nat)
    requires Shaped(fs) && n <= |Free(fs, 0)|
    ensures forall i :: 0 <= i < n ==> Free(fs, 0)[..n][i] < fs.size
  {
    FreeExact(fs, 0);
  }

  // ---------------------------------------------------------- fitting the log

  lemma {:induction false} SectorsOfPrefix(writes: seq<Log.Write>, k: nat)
    requires k <= |writes|
    ensures Log.SectorsOf(writes[..k]) <= Log.SectorsOf(writes)
    decreases |writes|
  {
    if k < |writes| {
      SectorsOfPrefix(writes[..|writes| - 1], k);
      assert writes[..|writes| - 1][..k] == writes[..k];
    } else {
      assert writes[..k] == writes;
    }
  }

  /** Writes are all accepted exactly if those before the last one leave room for
      it. */
  lemma {:induction false} RoomIff(limit: nat, writes: seq<Log.Write>)
    ensures Log.HasRoom(limit, writes) <==> writes == [] || |Log.SectorsOf(writes[..|writes| - 1])| < limit
  {
    if writes != [] {
      var init := writes[..|writes| - 1];
      RoomIff(limit, init);
      if init != [] {
        SectorsOfPrefix(init, |init| - 1);
        SubsetSize(Log.SectorsOf(init[..|init| - 1]), Log.SectorsOf(init));
      }
    }
  }

  ghost predicate Grew(t: Txn, ino: nat)
    requires ino < |t.before.inodes|
  {
    t.off + |t.src| > t.before.inodes[ino].size
  }

  /** A chunk that stays within the file finds every slot filled. */
  lemma InsideAllFull(fs: Fs, ino: nat, off: nat, n: nat)
    requires Consistent(fs) && ino < fs.ninodes && n > 0 && off + n <= fs.inodes[ino].size && EndBlock(off, n) <= MAXFILE
    ensures EmptyIn(fs, ino, off / BSIZE, EndBlock(off, n)) == {}
  {
    forall y ensures y !in EmptyIn(fs, ino, off / BSIZE, EndBlock(off, n)) {
      if y in EmptyIn(fs, ino, off / BSIZE, EndBlock(off, n)) {
        EmptyInIff(fs, ino, off / BSIZE, EndBlock(off, n), y);
        var bn :| off / BSIZE <= bn < EndBlock(off, n) && Through(ino, bn, y);
        BlockFull(fs, ino, off, n, bn, y);
      }
    }
  }

  lemma BlockFull(fs: Fs, ino: nat, off: nat, n: nat, bn: nat, y: Slot)
    requires Consistent(fs) && ino < fs.ninodes && n > 0 && off + n <= fs.inodes[ino].size
    requires off / BSIZE <= bn < EndBlock(off, n) <= MAXFILE && Through(ino, bn, y)
    ensures InRange(fs, y) && Ptr(fs, y) != 0
  {
    assert Mapped(fs, ino);
    assert bn * BSIZE < fs.inodes[ino].size;
    assert MapOf(fs, ino, bn) != 0;
    PathIff(SlotOf(ino, bn), y);
    PathInRange(fs, SlotOf(ino, bn), y);
  }

  /** The sectors before the last write of a chunk. */
  lemma ChunkSectors(t: Txn, ino: nat)
    requires ChunkLogged(t, ino)
    ensures BlocksEnough(t.before, ino, t.off / BSIZE, EndBlock(t.off, |t.src|))
    ensures Grew(t, ino) ==> t.writes != []
    ensures Grew(t, ino) ==>
      |Log.SectorsOf(t.writes[..|t.writes| - 1])| == RangeCount(t.before, ino, t.off / BSIZE, EndBlock(t.off, |t.src|))
    ensures !Grew(t, ino) ==> |Log.SectorsOf(t.writes)| == EndBlock(t.off, |t.src|) - t.off / BSIZE
  {
    hide WriteData, DataTouched, Consistent, RangeSectors, Finish, Took;
    var fs, lo, hi := t.before, t.off / BSIZE, EndBlock(t.off, |t.src|);
    WriteSectors([], t.writes, fs, t.after, ino, t.off, t.src);
    RangeSectorsSize(fs, t.after, ino, lo, hi);
    assert {} + DataTouched(fs, ino, t.off, t.src) == DataTouched(fs, ino, t.off, t.src);
    if !Grew(t, ino) {
      assert t.writes[..|t.writes|] == t.writes;
      InsideAllFull(fs, ino, t.off, |t.src|);
      NoneToFill(fs, ino, lo, hi);
    }
  }

  lemma NoneToFill(fs: Fs, ino: nat, lo: nat, hi: nat)
    requires Shaped(fs) && lo <= hi <= MAXFILE && EmptyIn(fs, ino, lo, hi) == {}
    ensures BlocksEnough(fs, ino, lo, hi) && RangeCount(fs, ino, lo, hi) == hi - lo
  {
    NoBitmap(fs, Free(fs, 0));
    assert ParentsOf({}) == {};
  }

  /** The log of ten sectors that mkfs makes, less its header. */
  const LOGROOM: nat := 9

  /** balloc has a sector for every empty slot on the way to the `n` bytes. */
  ghost predicate Supplied(fs: Fs, ino: nat, off: nat, n: nat) {
    Shaped(fs) && ino < |fs.inodes| && EndBlock(off, n) <= MAXFILE && BlocksEnough(fs, ino, off / BSIZE, EndBlock(off, n))
  }

  /** Writing them makes the file grow and needs the whole log before the inode's
      turn comes. */
  ghost predicate TooBig(fs: Fs, ino: nat, off: nat, n: nat) {
    Supplied(fs, ino, off, n) && off + n > fs.inodes[ino].size && RangeCount(fs, ino, off / BSIZE, EndBlock(off, n)) >= LOGROOM
  }

  /** A chunk of filewrite makes log_write panic exactly if it is too big. */
  lemma ChunkFitsIff(t: Txn, ino: nat)
    requires ChunkLogged(t, ino)
    ensures Supplied(t.before, ino, t.off, |t.src|)
    ensures Log.HasRoom(LOGROOM, t.writes) <==> !TooBig(t.before, ino, t.off, |t.src|)
  {
    hide ChunkLogged, RangeCount, BlocksEnough, Log.SectorsOf, Log.HasRoom;
    RoomIff(LOGROOM, t.writes);
    FewBlocks(t, ino);
    ChunkSectors(t, ino);
    if !Grew(t, ino) && t.writes != [] {
      SectorsOfPrefix(t.writes, |t.writes| - 1);
      SubsetSize(Log.SectorsOf(t.writes[..|t.writes| - 1]), Log.SectorsOf(t.writes));
    }
  }

  /** The buffers of the cache. */
  const NBUF: nat := 10

  /** What a chunk that fits logs leaves room in the cache: for one more buffer besides
      the log's before the inode is logged, and for the log's after that. */
  lemma ChunkPins(t: Txn, ino: nat)
    requires ChunkLogged(t, ino) && !TooBig(t.before, ino, t.off, |t.src|)
    ensures t.off + |t.src| <= MAXFILE * BSIZE && Owned(t.before) && ino < t.before.ninodes
    ensures |DataTouched(t.before, ino, t.off, t.src)| + 1 < NBUF && |Log.SectorsOf(t.writes)| < NBUF
  {
    hide WriteData, DataTouched, RangeCount, BlocksEnough, Finish, Took, Mapped, Synced;
    FewBlocks(t, ino);
    ChunkSectors(t, ino);
    ChunkFitsIff(t, ino);
    var n := |t.writes| - 1;
    var d := DataTouched(t.before, ino, t.off, t.src);
    assert {} + d == d;
    if Grew(t, ino) {
      AtMostOne(Log.SectorsOf(t.writes[..n]), t.writes[n].sector);
    } else {
      assert t.writes[..|t.writes|] == t.writes;
    }
  }

  lemma AtMostOne(s: set<nat>, x: nat)
    ensures |s + {x}| <= |s| + 1
  {
    if x in s { assert s + {x} == s; }
  }

  lemma FewBlocks(t: Txn, ino: nat)
    requires ChunkLogged(t, ino)
    ensures Shaped(t.before) && ino < |t.before.inodes|
    ensures t.off / BSIZE < EndBlock(t.off, |t.src|) <= t.off / BSIZE + 4 && EndBlock(t.off, |t.src|) <= MAXFILE
  {
  }

  // ------------------------------------------------------------ below the log

  /** No metadata and no pointer reaches `limit`, where the log starts. */
  ghost predicate BelowLog(fs: Fs, limit: nat) {
    DataStart(fs) <= limit && forall y :: InRange(fs, y) ==> Ptr(fs, y) < limit
  }

  lemma {:induction false} SectorsBelow(writes: seq<Log.Write>, limit: nat)
    ensures Log.AtHome(limit, writes) <==> Below(Log.SectorsOf(writes), limit)
  {
    if writes != [] {
      SectorsBelow(writes[..|writes| - 1], limit);
      Log.AtHomeLast(limit, writes);
    }
  }

  ghost predicate Below(s: set<nat>, limit: nat) {
    forall n :: n in s ==> n < limit
  }

  /** The first `n` free sectors lie below `limit`. */
  ghost predicate FreeBelowLimit(fs: Fs, n: nat, limit: nat)
    requires Shaped(fs) && n <= |Free(fs, 0)|
  {
    n == 0 || Free(fs, 0)[n - 1] < limit
  }

  lemma FreePrefixBelow(fs: Fs, n: nat, limit: nat)
    requires Shaped(fs) && n <= |Free(fs, 0)|
    ensures FreeBelowLimit(fs, n, limit) <==> forall i :: 0 <= i < n ==> Free(fs, 0)[..n][i] < limit
  {
    FreeExact(fs, 0);
    var s := Free(fs, 0)[..n];
    forall i | 0 <= i < n ensures s[i] == Free(fs, 0)[i] { }
    if n > 0 { assert s[n - 1] == Free(fs, 0)[n - 1]; }
  }

  /** Every slot that a range fills is one of its blocks' or holds an indirect block
      that received a pointer. */
  lemma RangeClosed(fs: Fs, ino: nat, lo: nat, hi: nat)
    requires ino < |fs.inodes| && lo <= hi <= MAXFILE
    ensures EmptyIn(fs, ino, lo, hi) <= RangeSlots(ino, lo, hi) + ParentsOf(EmptyIn(fs, ino, lo, hi))
  {
    hide SlotOf;
    forall y | y in EmptyIn(fs, ino, lo, hi)
      ensures y in RangeSlots(ino, lo, hi) || y in ParentsOf(EmptyIn(fs, ino, lo, hi))
    {
      EmptyInIff(fs, ino, lo, hi, y);
      var bn :| lo <= bn < hi && Through(ino, bn, y);
      var x := SlotOf(ino, bn);
      if y != x {
        BlockInRange(fs, ino, bn);
        var z := ChildOnPath(fs, x, y);
        assert Through(ino, bn, z);
        EmptyInIff(fs, ino, lo, hi, z);
      }
    }
  }

  lemma BlockInRange(fs: Fs, ino: nat, bn: nat)
    requires ino < |fs.inodes| && bn < MAXFILE
    ensures InRange(fs, SlotOf(ino, bn))
  {
  }

  lemma ChildOnPath(fs: Fs, x: Slot, y: Slot) returns (z: Slot)
    requires InRange(fs, x) && y in PathTo(x) && y != x && Ptr(fs, y) == 0
    ensures z in PathTo(x) && InRange(fs, z) && !z.Root? && Parent(z) == y && Ptr(fs, z) == 0
  {
    z := if y == Parent(x) then x else Parent(x);
  }

  /** The filled slots hold exactly the sectors that were taken. */
  lemma TakenExactly(fs: Fs, v: Fs, e: set<Slot>)
    requires Took(fs, v, e)
    ensures Sectors(v, e) == set i | 0 <= i < |e| :: Free(fs, 0)[..|e|][i] as nat
  {
    hide Used, Free;
    var taken := Free(fs, 0)[..|e|];
    var all := set i | 0 <= i < |taken| :: taken[i] as nat;
    assert Sectors(v, e) <= all by {
      forall n: nat | n in Sectors(v, e) ensures n in all {
        var y :| y in e && InRange(v, y) && Ptr(v, y) == n;
        var i :| 0 <= i < |taken| && taken[i] == n;
      }
    }
    TookFull(fs, v, e);
    SectorsSize(v, e);
    AtMost(taken, |taken|);
    SubsetAll(Sectors(v, e), all);
  }

  lemma {:induction false} AtMost(s: seq<Word>, n: nat)
    requires n <= |s|
    ensures |set i | 0 <= i < n :: s[i] as nat| <= n
  {
    var all := set i | 0 <= i < n :: s[i] as nat;
    if n > 0 {
      AtMost(s, n - 1);
      var less := set i | 0 <= i < n - 1 :: s[i] as nat;
      assert all == less + {s[n - 1] as nat};
    } else {
      assert all == {};
    }
  }

  lemma SubsetAll(a: set<nat>, b: set<nat>)
    requires a <= b && |b| <= |a|
    ensures a == b
  {
    if a != b {
      var x :| x in b && x !in a;
      SubsetSize(a + {x}, b);
    }
  }

  /** A range's sectors are all below the log exactly if the free sectors it takes
      are, and then no pointer reaches the log afterwards. */
  lemma RangeBelow(fs: Fs, v: Fs, ino: nat, lo: nat, hi: nat, limit: nat)
    requires TookTo(fs, v, ino, lo, hi) && BelowLog(fs, limit)
    ensures var n := |EmptyIn(fs, ino, lo, hi)|;
      && (Below(RangeSectors(fs, v, ino, lo, hi), limit) <==> FreeBelowLimit(fs, n, limit))
      && (FreeBelowLimit(fs, n, limit) ==> BelowLog(v, limit))
  {
    hide Used, Free, EmptyIn;
    var e, d := EmptyIn(fs, ino, lo, hi), RangeSlots(ino, lo, hi);
    FreePrefixBelow(fs, |e|, limit);
    if FreeBelowLimit(fs, |e|, limit) {
      forall y | InRange(v, y) ensures Ptr(v, y) < limit { PtrBelow(fs, v, e, y, limit); }
      BitmapsBelow(fs, |e|, limit);
    } else {
      RangeClosed(fs, ino, lo, hi);
      TakenExactly(fs, v, e);
      var i :| 0 <= i < |e| && Free(fs, 0)[..|e|][i] >= limit;
      var n := Free(fs, 0)[..|e|][i] as nat;
      assert n in Sectors(v, e);
      var y :| y in e && InRange(v, y) && Ptr(v, y) == n;
      assert y in d + ParentsOf(e);
      assert n in RangeSectors(fs, v, ino, lo, hi);
    }
  }

  lemma PtrBelow(fs: Fs, v: Fs, e: set<Slot>, y: Slot, limit: nat)
    requires Took(fs, v, e) && BelowLog(fs, limit) && InRange(v, y)
    requires forall i :: 0 <= i < |e| ==> Free(fs, 0)[..|e|][i] < limit
    ensures Ptr(v, y) < limit
  {
    hide Used, Free;
    assert InRange(fs, y);
    if Ptr(fs, y) == 0 && y in e {
      var i :| 0 <= i < |e| && Free(fs, 0)[..|e|][i] == Ptr(v, y);
    }
  }

  lemma BitmapsBelow(fs: Fs, n: nat, limit: nat)
    requires Shaped(fs) && n <= |Free(fs, 0)| && DataStart(fs) <= limit
    ensures Below(Bitmaps(fs, Free(fs, 0)[..n]), limit)
  {
    FreeInside(fs, n);
  }

  /** What writing the `n` bytes allocates lies below `limit`. */
  ghost predicate ClearOfLog(fs: Fs, ino: nat, off: nat, n: nat, limit: nat): (r: bool)
    ensures r ==> Supplied(fs, ino, off, n)
  {
    Supplied(fs, ino, off, n) && FreeBelowLimit(fs, |EmptyIn(fs, ino, off / BSIZE, EndBlock(off, n))|, limit)
  }

  /** A chunk writes below the log only, exactly if as many sectors are free there as
      it allocates. */
  lemma ChunkBelowLog(t: Txn, ino: nat, limit: nat)
    requires ChunkLogged(t, ino) && BelowLog(t.before, limit)
    ensures Supplied(t.before, ino, t.off, |t.src|)
    ensures Log.AtHome(limit, t.writes) <==> ClearOfLog(t.before, ino, t.off, |t.src|, limit)
    ensures ClearOfLog(t.before, ino, t.off, |t.src|, limit) ==> BelowLog(t.after, limit)
  {
    hide WriteData, DataTouched, RangeSectors, Finish, Took, BelowLog, FreeBelowLimit, EmptyIn, Free, Log.AtHome;
    FewBlocks(t, ino);
    var fs, lo, hi := t.before, t.off / BSIZE, EndBlock(t.off, |t.src|);
    WriteSectors([], t.writes, fs, t.after, ino, t.off, t.src);
    RangeSectorsSize(fs, t.after, ino, lo, hi);
    RangeBelow(fs, t.after, ino, lo, hi, limit);
    SectorsBelow(t.writes, limit);
    InodeBelow(fs, ino, limit);
    assert {} + DataTouched(fs, ino, t.off, t.src) == DataTouched(fs, ino, t.off, t.src);
    if !Grew(t, ino) {
      assert t.writes[..|t.writes|] == t.writes;
    } else {
      assert t.writes == t.writes[..|t.writes| - 1] + [t.writes[|t.writes| - 1]];
      Log.ApplyOne([], t.writes[..|t.writes| - 1], t.writes[|t.writes| - 1]);
    }
  }

  lemma InodeBelow(fs: Fs, ino: nat, limit: nat)
    requires Shaped(fs) && ino < fs.ninodes && BelowLog(fs, limit)
    ensures IBlock(ino) < limit
  {
  }

  // ------------------------------------------------------ what the log takes

  /** The log takes a chunk of the `n` bytes: balloc finds the sectors, log_write
      accepts them, and none is the log's own. */
  ghost predicate Takes(fs: Fs, ino: nat, off: nat, n: nat, limit: nat) {
    !TooBig(fs, ino, off, n) && ClearOfLog(fs, ino, off, n, limit)
  }

  ghost predicate AllTaken(txns: Txns, ino: nat, limit: nat)
    decreases txns
  {
    txns.AndThen? ==> AllTaken(txns.prev, ino, limit) && Takes(txns.t.before, ino, txns.t.off, |txns.t.src|, limit)
  }

  lemma ChunkTaken(t: Txn, ino: nat, limit: nat)
    requires ChunkLogged(t, ino) && BelowLog(t.before, limit)
    ensures Takes(t.before, ino, t.off, |t.src|, limit) <==> Log.AtHome(limit, t.writes) && Log.HasRoom(LOGROOM, t.writes)
    ensures Takes(t.before, ino, t.off, |t.src|, limit) ==> BelowLog(t.after, limit)
  {
    hide ChunkLogged, BelowLog, TooBig, ClearOfLog, Log.AtHome, Log.HasRoom;
    ChunkFitsIff(t, ino);
    ChunkBelowLog(t, ino, limit);
  }

  // The same for a chunk in the middle of a filewrite, from the state before all of it.

  /** How many sectors blocks lo' .. hi' log after blocks lo .. hi. */
  ghost function LaterCount(fs: Fs, ino: nat, lo: nat, hi: nat, lo': nat, hi': nat): (k: nat)
    requires Shaped(fs) && lo <= lo' <= hi <= hi' <= MAXFILE && BlocksEnough(fs, ino, lo, hi')
  {
    EmptyInMore(fs, ino, lo, hi, hi');
    var before, all := EmptyIn(fs, ino, lo, hi), EmptyIn(fs, ino, lo, hi');
    (hi' - lo') + |ParentsOf(all - before)| + |Bitmaps(fs, Free(fs, 0)[|before|..|all|])|
  }

  lemma LaterCountIs(fs: Fs, v: Fs, ino: nat, lo: nat, hi: nat, lo': nat, hi': nat)
    requires TookTo(fs, v, ino, lo, hi) && lo <= lo' <= hi <= hi' <= MAXFILE && BlocksEnough(fs, ino, lo, hi')
    ensures BlocksEnough(v, ino, lo', hi') && RangeCount(v, ino, lo', hi') == LaterCount(fs, ino, lo, hi, lo', hi')
  {
    hide Filled, Placed, Used, Free, EmptyIn, Ptr;
    InodeCount(fs);
    InodeCount(v);
    EmptyInMore(fs, ino, lo, hi, hi');
    EmptyInJoin(fs, v, ino, lo, hi, lo', hi');
    var a, b := EmptyIn(fs, ino, lo, hi), EmptyIn(v, ino, lo', hi');
    UnionMinus(a, b);
    assert Free(v, 0)[..|b|] == Free(fs, 0)[|a|..|a| + |b|];
    SameBitmaps(fs, v, Free(v, 0)[..|b|]);
  }

  lemma UnionMinus<T>(a: set<T>, b: set<T>)
    requires |a + b| == |a| + |b|
    ensures (a + b) - a == b
  {
    var c := b - a;
    assert a + b == a + c && a !! c;
    assert |a + c| == |a| + |c|;
    assert b == c + b * a && c !! b * a;
    assert |b| == |c| + |b * a|;
    assert b * a == {};
  }

  lemma SameBitmaps(fs: Fs, v: Fs, s: seq<Word>)
    requires v.ninodes == fs.ninodes
    ensures Bitmaps(v, s) == Bitmaps(fs, s)
  {
    forall i | 0 <= i < |s| ensures BBlock(v, s[i]) == BBlock(fs, s[i]) { }
  }

  /** The free sectors are taken in increasing order. */
  lemma LaterBelow(fs: Fs, v: Fs, ino: nat, lo: nat, hi: nat, lo': nat, hi': nat, limit: nat)
    requires TookTo(fs, v, ino, lo, hi) && lo <= lo' <= hi <= hi' <= MAXFILE
    requires BlocksEnough(fs, ino, lo, hi') && BlocksEnough(fs, ino, lo, hi) && BlocksEnough(v, ino, lo', hi')
    requires FreeBelowLimit(fs, |EmptyIn(fs, ino, lo, hi)|, limit)
    ensures FreeBelowLimit(v, |EmptyIn(v, ino, lo', hi')|, limit) <==> FreeBelowLimit(fs, |EmptyIn(fs, ino, lo, hi')|, limit)
  {
    hide Filled, Placed, Used, Free, Owned, EmptyIn;
    InodeCount(fs);
    InodeCount(v);
    EmptyInJoin(fs, v, ino, lo, hi, lo', hi');
  }

  lemma BelowLess(fs: Fs, n: nat, m: nat, limit: nat)
    requires Shaped(fs) && n <= m <= |Free(fs, 0)| && FreeBelowLimit(fs, m, limit)
    ensures FreeBelowLimit(fs, n, limit)
  {
    FreeExact(fs, 0);
  }

  /** The bytes of filewrite's chunk at `i`, of `all`. */
  function Piece(all: nat, i: nat): (n: nat)
    requires i <= all
  {
    if all - i > MAXCHUNK then MAXCHUNK else all - i
  }

  /** Bytes i .. i + n of those at `off` are a chunk that is too big. */
  ghost predicate LaterTooBig(fs: Fs, ino: nat, off: nat, i: nat, n: nat) {
    n > 0 && Supplied(fs, ino, off, i + n) && off + i + n > fs.inodes[ino].size &&
    (EndBlockMore(off, i, n);
     LaterCount(fs, ino, off / BSIZE, EndBlock(off, i), (off + i) / BSIZE, EndBlock(off, i + n)) >= LOGROOM)
  }

  /** The log takes all chunks among the first `i` of `all` bytes at `off`. This can
      be seen before the first of them is written. */
  ghost predicate TakesTo(fs: Fs, ino: nat, off: nat, i: nat, all: nat, limit: nat) {
    i == 0 ||
    (ClearOfLog(fs, ino, off, i, limit) &&
     forall j :: 0 <= j < i <= all && j % MAXCHUNK == 0 ==> !LaterTooBig(fs, ino, off, j, Piece(all, j)))
  }

  lemma SuppliedMore(fs: Fs, v: Fs, ino: nat, off: nat, i: nat, n: nat)
    requires TookTo(fs, v, ino, off / BSIZE, EndBlock(off, i)) && n > 0
    ensures Supplied(v, ino, off + i, n) <==> Supplied(fs, ino, off, i + n)
  {
    hide EmptyIn, Free, Filled, Placed, BlocksEnough;
    InodeCount(fs);
    TookInodes(fs, v, ino, off / BSIZE, EndBlock(off, i));
    EndBlockMore(off, i, n);
    if EndBlock(off, i + n) <= MAXFILE { EnoughMore(fs, v, ino, off, i, n); }
  }

  lemma TookInodes(fs: Fs, v: Fs, ino: nat, lo: nat, hi: nat)
    requires TookTo(fs, v, ino, lo, hi)
    ensures Owned(fs) && Owned(v) && |v.inodes| == |fs.inodes| && ino < |v.inodes|
  {
    InodeCount(fs);
    InodeCount(v);
  }

  lemma TooBigNext(fs: Fs, v: Fs, ino: nat, off: nat, i: nat, n: nat)
    requires TookTo(fs, v, ino, off / BSIZE, EndBlock(off, i)) && n > 0
    requires Supplied(v, ino, off + i, n) && Supplied(fs, ino, off, i + n)
    requires off + i + n > v.inodes[ino].size <==> off + i + n > fs.inodes[ino].size
    ensures TooBig(v, ino, off + i, n) <==> LaterTooBig(fs, ino, off, i, n)
  {
    hide EmptyIn, Free, Took, RangeCount, LaterCount;
    EndBlockMore(off, i, n);
    LaterCountIs(fs, v, ino, off / BSIZE, EndBlock(off, i), (off + i) / BSIZE, EndBlock(off, i + n));
  }

  lemma ClearNext(fs: Fs, v: Fs, ino: nat, off: nat, i: nat, n: nat, limit: nat)
    requires TookTo(fs, v, ino, off / BSIZE, EndBlock(off, i)) && n > 0
    requires Supplied(v, ino, off + i, n) && Supplied(fs, ino, off, i + n)
    requires i == 0 || ClearOfLog(fs, ino, off, i, limit)
    ensures ClearOfLog(v, ino, off + i, n, limit) <==> ClearOfLog(fs, ino, off, i + n, limit)
  {
    hide EmptyIn, Free, Took;
    EndBlockMore(off, i, n);
    if i == 0 { EmptyInNone(fs, ino, off / BSIZE); }
    LaterBelow(fs, v, ino, off / BSIZE, EndBlock(off, i), (off + i) / BSIZE, EndBlock(off, i + n), limit);
  }

  /** Chunks start at multiples of their size. */
  lemma NextStart(i: nat, n: nat, j: nat)
    requires i % MAXCHUNK == 0 && j % MAXCHUNK == 0 && n <= MAXCHUNK && j < i + n
    ensures j <= i
  {
  }

  /** A chunk is taken when its turn comes exactly if that could be seen before. */
  lemma TakesNext(fs: Fs, v: Fs, ino: nat, off: nat, i: nat, n: nat, all: nat, limit: nat)
    requires TookTo(fs, v, ino, off / BSIZE, EndBlock(off, i)) && i < all && n == Piece(all, i) && i % MAXCHUNK == 0
    requires off + i + n > v.inodes[ino].size <==> off + i + n > fs.inodes[ino].size
    requires TakesTo(fs, ino, off, i, all, limit)
    ensures Takes(v, ino, off + i, n, limit) <==> TakesTo(fs, ino, off, i + n, all, limit)
  {
    hide Took, EmptyIn, TooBig, LaterTooBig, ClearOfLog, Supplied;
    SuppliedMore(fs, v, ino, off, i, n);
    if Supplied(v, ino, off + i, n) {
      TooBigNext(fs, v, ino, off, i, n);
      ClearNext(fs, v, ino, off, i, n, limit);
      forall j | 0 <= j < i + n && j % MAXCHUNK == 0 ensures j <= i { NextStart(i, n, j); }
    }
  }

  /** What holds of all bytes holds of the first `i`. */
  lemma TakesLess(fs: Fs, ino: nat, off: nat, i: nat, all: nat, limit: nat)
    requires i <= all && TakesTo(fs, ino, off, all, all, limit)
    ensures TakesTo(fs, ino, off, i, all, limit)
  {
    hide EmptyIn, Free, LaterTooBig;
    if i > 0 {
      EmptyInMore(fs, ino, off / BSIZE, EndBlock(off, i), EndBlock(off, all));
      BelowLess(fs, |EmptyIn(fs, ino, off / BSIZE, EndBlock(off, i))|, |EmptyIn(fs, ino, off / BSIZE, EndBlock(off, all))|, limit);
    }
  }

  /** balloc or log_write panics. */
  ghost predicate ChunkPanics(fs: Fs, ino: nat, off: nat, n: nat) {
    !Supplied(fs, ino, off, n) || TooBig(fs, ino, off, n)
  }

  lemma AcceptedChunk(fs: Fs, ino: nat, off: nat, n: nat)
    requires Shaped(fs) && ino < fs.ninodes && n > 0 && off < UINT && n <= MAXCHUNK && !Refuses(fs.inodes[ino].size, off, n)
    ensures Supplied(fs, ino, off, n) <==> Enough(fs, ino, off, n)
  {
  }

  lemma TakesNone(fs: Fs, ino: nat, off: nat, all: nat, limit: nat)
    ensures TakesTo(fs, ino, off, 0, all, limit)
  {
  }

  /** The next chunk of filewrite is taken exactly if that could be seen before the
      first one; if not, the log does not take all of them. */
  lemma ChunkTurn(fs: Fs, v: Fs, ino: nat, off: nat, done: seq<Byte>, txns: Txns, n: nat, all: nat, limit: nat)
    requires Consistent(fs) && Consistent(v) && ino < fs.ninodes && Chained(fs, v, ino, off, done, txns)
    requires |done| < all && n == Piece(all, |done|) && |done| % MAXCHUNK == 0 && off + all <= MAXFILE * BSIZE
    requires TakesTo(fs, ino, off, |done|, all, limit)
    ensures Takes(v, ino, off + |done|, n, limit) <==> TakesTo(fs, ino, off, |done| + n, all, limit)
    ensures !Takes(v, ino, off + |done|, n, limit) ==> !TakesTo(fs, ino, off, all, all, limit)
  {
    hide Chained, Owned, Mapped, Synced, Takes, TakesTo, TookTo;
    InodeCount(fs);
    ChainedTook(fs, v, ino, off, done, txns);
    ChainedSize(fs, v, ino, off, done, txns);
    TakesNext(fs, v, ino, off, |done|, n, all, limit);
    if TakesTo(fs, ino, off, all, all, limit) { TakesLess(fs, ino, off, |done| + n, all, limit); }
  }

  // ------------------------------------------------------- when it always fits

  /** Of at most four consecutive blocks, each is reached directly or through the
      same indirect block as the first or the last of them. */
  lemma SharedParents(ino: nat, lo: nat, bn: nat, last: nat)
    requires lo <= bn <= last < lo + 4 && last < MAXFILE
    ensures var x, y, z := SlotOf(ino, bn), SlotOf(ino, lo), SlotOf(ino, last);
            || x.Root?
            || (!y.Root? && Parent(x) == Parent(y))
            || (!z.Root? && Parent(x) == Parent(z))
  {
  }

  /** The indirect blocks on the way to a block. */
  function Inner(x: Slot): (r: set<Slot>)
    requires IsData(x)
  {
    if x.Root? then {} else PathTo(Parent(x))
  }

  lemma FewInner(ino: nat, lo: nat, last: nat)
    requires lo <= last < MAXFILE
    ensures |Inner(SlotOf(ino, lo)) + Inner(SlotOf(ino, last))| <= 3
  {
    var x, y := SlotOf(ino, lo), SlotOf(ino, last);
    var d := Root(ino, NDIRECT + NUM_INDIRECT);
    if y.Leaf? {
      var rest := if x.Root? then {Parent(y)} else {Parent(x), Parent(y)};
      assert Inner(x) + Inner(y) <= rest + {d};
      SubsetSize(Inner(x) + Inner(y), rest + {d});
    } else {
      var all := (if x.Root? then {} else {Parent(x)}) + (if y.Root? then {} else {Parent(y)});
      assert Inner(x) + Inner(y) <= all;
      SubsetSize(Inner(x) + Inner(y), all);
    }
  }

  lemma ParentInner(ino: nat, lo: nat, hi: nat, bn: nat, y: Slot)
    requires lo <= bn < hi <= MAXFILE && hi <= lo + 4 && Through(ino, bn, y) && !y.Root?
    ensures Parent(y) in Inner(SlotOf(ino, lo)) + Inner(SlotOf(ino, hi - 1))
  {
    SharedParents(ino, lo, bn, hi - 1);
    assert Parent(y) in Inner(SlotOf(ino, bn));
  }

  /** A chunk adds pointers to at most three indirect blocks. */
  lemma FewParents(fs: Fs, ino: nat, lo: nat, hi: nat)
    requires lo < hi <= MAXFILE && hi <= lo + 4
    ensures |ParentsOf(EmptyIn(fs, ino, lo, hi))| <= 3
  {
    hide SlotOf, Inner;
    var all := Inner(SlotOf(ino, lo)) + Inner(SlotOf(ino, hi - 1));
    forall p | p in ParentsOf(EmptyIn(fs, ino, lo, hi)) ensures p in all {
      var y :| y in EmptyIn(fs, ino, lo, hi) && !y.Root? && Parent(y) == p;
      EmptyInIff(fs, ino, lo, hi, y);
      var bn :| lo <= bn < hi && Through(ino, bn, y);
      ParentInner(ino, lo, hi, bn, y);
    }
    SubsetSize(ParentsOf(EmptyIn(fs, ino, lo, hi)), all);
    FewInner(ino, lo, hi - 1);
  }

  /** So a chunk never makes log_write panic if the sectors it allocates have their
      bits in one bitmap sector. */
  lemma ChunkFitsLog(t: Txn, ino: nat)
    requires ChunkLogged(t, ino)
    requires var e := EmptyIn(t.before, ino, t.off / BSIZE, EndBlock(t.off, |t.src|));
      |e| <= |Free(t.before, 0)| && BitmapCount(t.before, |e|) <= 1
    ensures Log.HasRoom(LOGROOM, t.writes)
  {
    hide ChunkLogged, Log.HasRoom, EmptyIn, Free, BitmapCount;
    FewBlocks(t, ino);
    ChunkFitsIff(t, ino);
    FewParents(t.before, ino, t.off / BSIZE, EndBlock(t.off, |t.src|));
  }

  // --------------------------------------------------------- when it does not

  /** From the middle of block 264, the last but one of the second singly-indirect
      block, a full chunk allocates five sectors below three indirect blocks. */
  lemma StraddleEmpty(fs: Fs, ino: nat)
    requires Owned(fs) && ino < fs.ninodes
    requires MapOf(fs, ino, 264) != 0 && MapOf(fs, ino, 265) == 0 && Ptr(fs, Root(ino, 12)) == 0
    ensures EmptyIn(fs, ino, 264, 268)
         == {Single(ino, 1, 127), Root(ino, 12), Double(ino, 0), Leaf(ino, 0, 0), Leaf(ino, 0, 1)}
  {
    hide EmptyIn;
    EmptyInNone(fs, ino, 264);
    EmptyInNext(fs, ino, 264, 264);
    EmptyInNext(fs, ino, 264, 265);
    EmptyInNext(fs, ino, 264, 266);
    EmptyInNext(fs, ino, 264, 267);
    assert SlotOf(ino, 264) == Single(ino, 1, 126) && SlotOf(ino, 265) == Single(ino, 1, 127);
    assert SlotOf(ino, 266) == Leaf(ino, 0, 0) && SlotOf(ino, 267) == Leaf(ino, 0, 1);
    StraddlePaths(fs, ino);
  }

  lemma StraddlePaths(fs: Fs, ino: nat)
    requires Owned(fs) && ino < fs.ninodes
    requires Ptr(fs, Single(ino, 1, 126)) != 0 && Ptr(fs, Single(ino, 1, 127)) == 0 && Ptr(fs, Root(ino, 12)) == 0
    ensures EmptyOn(fs, Single(ino, 1, 126)) == {} && EmptyOn(fs, Single(ino, 1, 127)) == {Single(ino, 1, 127)}
    ensures EmptyOn(fs, Leaf(ino, 0, 0)) == {Leaf(ino, 0, 0), Double(ino, 0), Root(ino, 12)}
    ensures EmptyOn(fs, Leaf(ino, 0, 1)) == {Leaf(ino, 0, 1), Double(ino, 0), Root(ino, 12)}
  {
    hide Owned, Used, Ptr;
    InodeCount(fs);
    StraddlePtrs(fs, ino);
    assert EmptyOn(fs, Single(ino, 1, 126)) == {};
    assert EmptyOn(fs, Single(ino, 1, 127)) == {Single(ino, 1, 127)};
    assert EmptyOn(fs, Leaf(ino, 0, 0)) == {Leaf(ino, 0, 0), Double(ino, 0), Root(ino, 12)};
    assert EmptyOn(fs, Leaf(ino, 0, 1)) == {Leaf(ino, 0, 1), Double(ino, 0), Root(ino, 12)};
  }

  lemma StraddlePtrs(fs: Fs, ino: nat)
    requires ino < |fs.inodes| && Ptr(fs, Single(ino, 1, 126)) != 0 && Ptr(fs, Root(ino, 12)) == 0
    ensures Ptr(fs, Root(ino, 11)) != 0 && Ptr(fs, Double(ino, 0)) == 0
    ensures Ptr(fs, Leaf(ino, 0, 0)) == 0 && Ptr(fs, Leaf(ino, 0, 1)) == 0
  {
    assert Ptr(fs, Double(ino, 0)) == 0;
  }

  /** If their bits lie in different bitmap sectors, log_write panics. */
  lemma StraddlePanics(fs: Fs, ino: nat, off: nat)
    requires Consistent(fs) && ino < fs.ninodes && 264 * BSIZE < off == fs.inodes[ino].size < 265 * BSIZE
    requires MapOf(fs, ino, 265) == 0 && Ptr(fs, Root(ino, 12)) == 0
    requires |Free(fs, 0)| >= 5 && Free(fs, 0)[0] / BPB != Free(fs, 0)[4] / BPB
    ensures Supplied(fs, ino, off, MAXCHUNK) && TooBig(fs, ino, off, MAXCHUNK)
  {
    hide Free, EmptyIn;
    assert off / BSIZE == 264 && EndBlock(off, MAXCHUNK) == 268;
    assert Mapped(fs, ino);
    assert MapOf(fs, ino, 264) != 0;
    StraddleEmpty(fs, ino);
    StraddleCount(fs, ino);
  }

  lemma StraddleCount(fs: Fs, ino: nat)
    requires Shaped(fs) && |Free(fs, 0)| >= 5 && Free(fs, 0)[0] / BPB != Free(fs, 0)[4] / BPB
    requires EmptyIn(fs, ino, 264, 268)
          == {Single(ino, 1, 127), Root(ino, 12), Double(ino, 0), Leaf(ino, 0, 0), Leaf(ino, 0, 1)}
    ensures BlocksEnough(fs, ino, 264, 268) && RangeCount(fs, ino, 264, 268) >= 9
  {
    hide EmptyIn, Free;
    var e := EmptyIn(fs, ino, 264, 268);
    FiveSlots(ino);
    var s := Free(fs, 0)[..5];
    assert s[0] == Free(fs, 0)[0] && s[4] == Free(fs, 0)[4];
    assert {BBlock(fs, s[0]), BBlock(fs, s[4])} <= Bitmaps(fs, s);
    SubsetSize({BBlock(fs, s[0]), BBlock(fs, s[4])}, Bitmaps(fs, s));
  }

  lemma FiveSlots(ino: nat)
    ensures var e := {Single(ino, 1, 127), Root(ino, 12), Double(ino, 0), Leaf(ino, 0, 0), Leaf(ino, 0, 1)};
      |e| == 5 && |ParentsOf(e)| == 3
  {
    var e := {Single(ino, 1, 127), Root(ino, 12), Double(ino, 0), Leaf(ino, 0, 0), Leaf(ino, 0, 1)};
    assert Parent(Single(ino, 1, 127)) == Root(ino, 11) && Parent(Double(ino, 0)) == Root(ino, 12);
    assert Parent(Leaf(ino, 0, 0)) == Double(ino, 0) == Parent(Leaf(ino, 0, 1));
    assert ParentsOf(e) == {Root(ino, 11), Root(ino, 12), Double(ino, 0)} by {
      assert Single(ino, 1, 127) in e && Double(ino, 0) in e && Leaf(ino, 0, 0) in e;
    }
  }
}
