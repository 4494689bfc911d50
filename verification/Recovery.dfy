/** Crashes of filewrite: what a machine finds on disk when it comes up again after
    it stopped anywhere in a filewrite, and possibly in the recoveries after that. */
module Recovery {
  import opened Blocks
  import opened BlockTree
  import opened Files
  import opened Writing
  import opened Budget
  import opened FileSystem
  import Log

  /** The file system as it comes up on disk `d`: every inode is read from its
      sector when it is first locked. */
  function Reload(fs: Fs, d: seq<Block>): (r: Fs)
    requires Shaped(fs) && |d| == fs.size
    ensures Shaped(r) && r.size == fs.size && r.ninodes == fs.ninodes
  {
    Fs(fs.size, fs.ninodes, d, seq(fs.ninodes, i requires 0 <= i < fs.ninodes => GetDinode(d[IBlock(i)], i % IPB)))
  }

  /** Disk `d` has the sectors of `fs` below `limit`. */
  ghost predicate SameBelow(fs: Fs, d: seq<Block>, limit: nat) {
    |d| == fs.size == |fs.blocks| && forall s :: 0 <= s < limit && s < |d| ==> d[s] == fs.blocks[s]
  }

  lemma ReloadInodes(fs: Fs, d: seq<Block>, limit: nat)
    requires Consistent(fs) && BelowLog(fs, limit) && SameBelow(fs, d, limit)
    ensures Reload(fs, d).inodes == fs.inodes
  {
    forall i | 0 <= i < fs.ninodes ensures Reload(fs, d).inodes[i] == fs.inodes[i] {
      assert Synced(fs, i);
      InodeBelow(fs, i, limit);
    }
  }

  lemma {:induction false} ReloadPtr(fs: Fs, d: seq<Block>, limit: nat, x: Slot)
    requires Shaped(fs) && BelowLog(fs, limit) && SameBelow(fs, d, limit) && InRange(fs, x)
    requires Reload(fs, d).inodes == fs.inodes
    ensures Ptr(Reload(fs, d), x) == Ptr(fs, x)
    decreases Level(x)
  {
    if !x.Root? { ReloadPtr(fs, d, limit, Parent(x)); }
  }

  lemma ReloadOwned(fs: Fs, d: seq<Block>, limit: nat)
    requires Consistent(fs) && BelowLog(fs, limit) && SameBelow(fs, d, limit)
    requires Reload(fs, d).inodes == fs.inodes
    ensures Owned(Reload(fs, d)) && BelowLog(Reload(fs, d), limit)
    ensures forall x :: InRange(fs, x) ==> Ptr(Reload(fs, d), x) == Ptr(fs, x)
  {
    var r := Reload(fs, d);
    forall x | InRange(fs, x) ensures Ptr(r, x) == Ptr(fs, x) { ReloadPtr(fs, d, limit, x); }
    forall b | 0 <= b < fs.size ensures Used(r, b) == Used(fs, b) { assert BBlock(fs, b) < limit; }
    forall x | InRange(r, x) && Ptr(r, x) != 0 ensures Marked(r, Ptr(r, x)) {
      assert InRange(fs, x) && Marked(fs, Ptr(fs, x));
    }
    StillApart(fs, r);
  }

  /** The log is not part of the file system: whatever its sectors hold, the same
      consistent system with the same files comes up. */
  lemma ReloadSame(fs: Fs, d: seq<Block>, limit: nat)
    requires Consistent(fs) && BelowLog(fs, limit) && SameBelow(fs, d, limit)
    ensures Consistent(Reload(fs, d)) && |Reload(fs, d).inodes| == |fs.inodes|
    ensures forall i :: 0 <= i < |fs.inodes| ==> Content(Reload(fs, d), i) == Content(fs, i)
  {
    var r := Reload(fs, d);
    ReloadInodes(fs, d, limit);
    ReloadOwned(fs, d, limit);
    forall i | 0 <= i < fs.ninodes ensures Mapped(r, i) && Synced(r, i) { ReloadFile(fs, d, limit, i); }
    forall i | 0 <= i < fs.ninodes ensures Content(r, i) == Content(fs, i) { ReloadContent(fs, d, limit, i); }
  }

  lemma ReloadFile(fs: Fs, d: seq<Block>, limit: nat, i: nat)
    requires Consistent(fs) && BelowLog(fs, limit) && SameBelow(fs, d, limit) && i < fs.ninodes
    requires Reload(fs, d).inodes == fs.inodes
    requires forall x :: InRange(fs, x) ==> Ptr(Reload(fs, d), x) == Ptr(fs, x)
    ensures Mapped(Reload(fs, d), i) && Synced(Reload(fs, d), i)
  {
    assert Mapped(fs, i);
    forall bn | 0 <= bn < MAXFILE && bn * BSIZE < fs.inodes[i].size ensures MapOf(Reload(fs, d), i, bn) != 0 {
      BlockInRange(fs, i, bn);
      assert MapOf(fs, i, bn) != 0;
    }
  }

  lemma ReloadContent(fs: Fs, d: seq<Block>, limit: nat, i: nat)
    requires Consistent(fs) && BelowLog(fs, limit) && SameBelow(fs, d, limit) && i < fs.ninodes
    requires Reload(fs, d).inodes == fs.inodes
    requires forall x :: InRange(fs, x) ==> Ptr(Reload(fs, d), x) == Ptr(fs, x)
    ensures Content(Reload(fs, d), i) == Content(fs, i)
  {
    var r := Reload(fs, d);
    forall o | 0 <= o < fs.inodes[i].size ensures ByteAt(r, i, o) == ByteAt(fs, i, o) {
      if o / BSIZE < MAXFILE { BlockInRange(fs, i, o / BSIZE); }
    }
  }

  // -------------------------------------------------------- running the chunks

  lemma {:induction false} ApplyBelow(h: seq<Block>, n: nat, writes: seq<Log.Write>)
    requires n <= |h|
    ensures Log.Apply(h[..n], writes) == Log.Apply(h, writes)[..n]
  {
    if writes != [] { ApplyBelow(h, n, writes[..|writes| - 1]); }
  }

  /** The home sectors of clean disk `d` are those of `fs`, and no file reaches the
      log. */
  ghost predicate OnDisk(g: Log.Geometry, d: Log.Disk, fs: Fs) {
    && Log.Clean(g, d) && Consistent(fs) && fs.size == |d|
    && BelowLog(fs, g.start) && Log.Home(g, d) == fs.blocks[..g.start]
  }

  /** One life of the machine that gets to point `p` of the transaction. */
  ghost predicate Chunk(g: Log.Geometry, d: Log.Disk, t: Txn, p: Log.CrashPoint, e: Log.Disk) {
    Log.Lived(g, d, Log.Life(t.writes, p), e)
  }

  /** The transactions ran one after the other, all to the end, from disk `d` to disk
      `e`; the machine may have gone down and recovered after each commit. */
  ghost predicate Ran(g: Log.Geometry, d: Log.Disk, txns: Txns, e: Log.Disk)
    decreases txns
  {
    if txns.NoTxns? then e == d
    else exists c, j: nat :: Ran(g, d, txns.prev, c) && Chunk(g, c, txns.t, Log.Committed(j), e)
  }

  lemma ChunkState(g: Log.Geometry, d: Log.Disk, t: Txn, ino: nat, p: Log.CrashPoint, e: Log.Disk)
    requires ChunkLogged(t, ino) && OnDisk(g, d, t.before) && Chunk(g, d, t, p, e)
    ensures OnDisk(g, e, if p.Committed? then t.after else t.before)
  {
    hide ChunkLogged, BelowLog, Consistent, Log.Run;
    Log.LifeAtomic(g, d, Log.Life(t.writes, p), e);
    if p.Committed? {
      Log.RunFits(g, d, t.writes);
      ChunkBelow(t, ino, g.start);
      ChunkAfter(t, ino);
      ApplyBelow(t.before.blocks, g.start, t.writes);
    }
  }

  lemma ChunkBelow(t: Txn, ino: nat, limit: nat)
    requires ChunkLogged(t, ino) && BelowLog(t.before, limit)
    requires Log.AtHome(limit, t.writes)
    ensures BelowLog(t.after, limit)
  {
    hide ChunkLogged, BelowLog, Log.AtHome, ClearOfLog;
    ChunkBelowLog(t, ino, limit);
  }

  lemma ChunkAfter(t: Txn, ino: nat)
    requires ChunkLogged(t, ino)
    ensures Consistent(t.after) && t.after.size == t.before.size && |t.before.blocks| == t.before.size
    ensures t.after.blocks == Log.Apply(t.before.blocks, t.writes)
  {
    ChunkTook(t, ino);
  }

  lemma {:induction false} RanState(g: Log.Geometry, d: Log.Disk, fs: Fs, v: Fs, ino: nat, off: nat, done: seq<Byte>, txns: Txns, e: Log.Disk)
    requires OnDisk(g, d, fs) && Chained(fs, v, ino, off, done, txns) && Ran(g, d, txns, e)
    ensures OnDisk(g, e, v)
    decreases txns
  {
    hide ChunkLogged, OnDisk, Chunk;
    if txns.AndThen? {
      var c, j: nat :| Ran(g, d, txns.prev, c) && Chunk(g, c, txns.t, Log.Committed(j), e);
      RanState(g, d, fs, txns.t.before, ino, off, txns.done, txns.prev, c);
      ChunkState(g, c, txns.t, ino, Log.Committed(j), e);
    }
  }

  // ------------------------------------------------------ which chunks can run

  /** A transaction that log_write accepts can be run to any point. */
  lemma CanLive(g: Log.Geometry, d: Log.Disk, writes: seq<Log.Write>, p: Log.CrashPoint) returns (e: Log.Disk)
    requires Log.Clean(g, d) && Log.Run(g, d, Log.Reached(writes, p)).Some?
    ensures Log.Lived(g, d, Log.Life(writes, p), e)
  {
    var image := Log.CrashImage(g, Log.Run(g, d, Log.Reached(writes, p)).value, p);
    e := Log.Recover(g, image);
    assert Log.RecoveredThrough(g, image, [image], e);
  }

  lemma ChunkRuns(g: Log.Geometry, d: Log.Disk, t: Txn, ino: nat)
    requires ChunkLogged(t, ino) && OnDisk(g, d, t.before) && g.size == 10
    ensures Takes(t.before, ino, t.off, |t.src|, g.start) <==> Log.Run(g, d, t.writes).Some?
  {
    hide ChunkLogged, BelowLog, Consistent, Takes, Log.Run, Log.AtHome, Log.HasRoom;
    ChunkTaken(t, ino, g.start);
    Log.RunFits(g, d, t.writes);
  }

  /** A filewrite's transactions can be run on the disk, with the log of ten sectors
      that mkfs makes, exactly if the log takes each of them. */
  lemma {:induction false} RunsIffTaken(g: Log.Geometry, d: Log.Disk, fs: Fs, v: Fs, ino: nat, off: nat, done: seq<Byte>, txns: Txns)
    requires OnDisk(g, d, fs) && g.size == 10 && Chained(fs, v, ino, off, done, txns)
    ensures (exists e :: Ran(g, d, txns, e)) <==> AllTaken(txns, ino, g.start)
    decreases txns
  {
    hide ChunkLogged, OnDisk, Takes, Log.Run, Log.Lived;
    if txns.NoTxns? {
      assert Ran(g, d, txns, d);
    } else {
      RunsIffTaken(g, d, fs, txns.t.before, ino, off, txns.done, txns.prev);
      if e :| Ran(g, d, txns, e) { var c := RanTaken(g, d, fs, v, ino, off, done, txns, e); }
      if AllTaken(txns, ino, g.start) {
        var c :| Ran(g, d, txns.prev, c);
        var e := TakenRuns(g, d, c, fs, v, ino, off, done, txns);
      }
    }
  }

  lemma RanTaken(g: Log.Geometry, d: Log.Disk, fs: Fs, v: Fs, ino: nat, off: nat, done: seq<Byte>, txns: Txns, e: Log.Disk)
    returns (c: Log.Disk)
    requires OnDisk(g, d, fs) && g.size == 10 && txns.AndThen? && Chained(fs, v, ino, off, done, txns) && Ran(g, d, txns, e)
    ensures Ran(g, d, txns.prev, c) && Takes(txns.t.before, ino, txns.t.off, |txns.t.src|, g.start)
  {
    hide ChunkLogged, OnDisk, Takes, Log.Run;
    var j: nat;
    c, j :| Ran(g, d, txns.prev, c) && Chunk(g, c, txns.t, Log.Committed(j), e);
    RanState(g, d, fs, txns.t.before, ino, off, txns.done, txns.prev, c);
    ChunkRuns(g, c, txns.t, ino);
  }

  lemma TakenRuns(g: Log.Geometry, d: Log.Disk, c: Log.Disk, fs: Fs, v: Fs, ino: nat, off: nat, done: seq<Byte>, txns: Txns)
    returns (e: Log.Disk)
    requires OnDisk(g, d, fs) && g.size == 10 && txns.AndThen? && Chained(fs, v, ino, off, done, txns)
    requires AllTaken(txns, ino, g.start) && Ran(g, d, txns.prev, c)
    ensures Ran(g, d, txns, e)
  {
    hide ChunkLogged, Takes, Log.Run, Log.Lived, BelowLog, Consistent;
    RanState(g, d, fs, txns.t.before, ino, off, txns.done, txns.prev, c);
    ChunkRuns(g, c, txns.t, ino);
    e := CanLive(g, c, txns.t.writes, Log.Committed(0));
    assert Chunk(g, c, txns.t, Log.Committed(0), e);
  }

  /** filewrite with its log: unless it panics or overwrites the log, its chunks can
      be run on the disk one after the other, and however that is done, the disk then
      holds the file system that filewrite left. */
  method FilewriteOnDisk(f: FileSystem, ino: nat, off: Word, src: seq<Byte>, ghost g: Log.Geometry, ghost d: Log.Disk)
    returns (r: WriteResult, pos: Word, ghost txns: Txns)
    requires OnDisk(g, d, f.Abs()) && g.size == 10 && f.logstart == g.start && ino < f.ninodes && |src| < 0x8000_0000
    modifies f
    ensures var a := Accepted(old(f.inodes[ino].size), off, |src|);
      && (r.Written? || r.Refused? <==> TakesTo(old(f.Abs()), ino, off, a, a, g.start))
      && (r.Written? || r.Refused? ==> pos == off + a)
    ensures exists e :: Ran(g, d, txns, e)
    ensures r.Written? || r.Refused? ==> forall e :: Ran(g, d, txns, e) ==> OnDisk(g, e, f.Abs())
  {
    hide Consistent, BelowLog, TakesTo, Takes, ChunkPanics, Ran, AllTaken, Chained, Accepted;
    ghost var fs, last := f.Abs(), f.Abs();
    r, pos, txns, last := f.Filewrite(ino, off, src);
    ghost var done := src[..pos - off];
    RunsIffTaken(g, d, fs, last, ino, off, done, txns);
    forall e | Ran(g, d, txns, e) ensures OnDisk(g, e, last) { RanState(g, d, fs, last, ino, off, done, txns, e); }
  }

  // ----------------------------------------------------------------- crashes

  /** When the machine comes up with `w` on disk, the file has `done` in it and every
      other file is as it was. */
  lemma ComesUp(g: Log.Geometry, e: Log.Disk, fs: Fs, w: Fs, ino: nat, off: nat, done: seq<Byte>, txns: Txns)
    requires Consistent(fs) && ino < fs.ninodes && Chained(fs, w, ino, off, done, txns) && OnDisk(g, e, w)
    ensures Log.Clean(g, e) && |e| == fs.size
    ensures Consistent(Reload(fs, e)) && OthersKept(fs, Reload(fs, e), ino)
    ensures Spliced(Content(fs, ino), Content(Reload(fs, e), ino), off, done)
  {
    hide ChunkDone, BelowLog, Mapped, Synced, Content;
    ChainedProgress(fs, w, ino, off, done, txns);
    ChainedShape(fs, w, ino, off, done, txns);
    FromHome(g, e, w);
    ReloadSame(w, e, g.start);
    SameReload(fs, w, e);
  }

  lemma ChainedShape(fs: Fs, w: Fs, ino: nat, off: nat, done: seq<Byte>, txns: Txns)
    requires Chained(fs, w, ino, off, done, txns)
    ensures w.size == fs.size && w.ninodes == fs.ninodes
    decreases txns
  {
    if txns.AndThen? {
      ChainedShape(fs, txns.t.before, ino, off, txns.done, txns.prev);
      ChunkTook(txns.t, ino);
    }
  }

  /** Stop a filewrite anywhere: after any number of its chunks, at any point of the
      next one, with any number of recoveries cut off after that. When the machine
      is up again, a consistent file system is on disk in which the file has a whole
      number of chunks, the last one exactly if its commit header was written, and
      every other file is as it was. */
  lemma FilewriteAtomic(g: Log.Geometry, d: Log.Disk, c: Log.Disk, e: Log.Disk,
                        fs: Fs, v: Fs, ino: nat, off: nat, done: seq<Byte>, txns: Txns, p: Log.CrashPoint)
    requires OnDisk(g, d, fs) && ino < fs.ninodes && txns.AndThen? && Chained(fs, v, ino, off, done, txns)
    requires Ran(g, d, txns.prev, c) && Chunk(g, c, txns.t, p, e)
    ensures Log.Clean(g, e) && Shaped(fs) && |e| == fs.size
    ensures Consistent(Reload(fs, e)) && OthersKept(fs, Reload(fs, e), ino)
    ensures Spliced(Content(fs, ino), Content(Reload(fs, e), ino), off, if p.Committed? then done else txns.done)
  {
    hide ChunkLogged, Chunk, BelowLog, Mapped, Synced, Content;
    RanState(g, d, fs, txns.t.before, ino, off, txns.done, txns.prev, c);
    ChunkState(g, c, txns.t, ino, p, e);
    if p.Committed? {
      ComesUp(g, e, fs, v, ino, off, done, txns);
    } else {
      ComesUp(g, e, fs, txns.t.before, ino, off, txns.done, txns.prev);
    }
  }

  /** The same when the next chunk does not get as far as its commit, because balloc
      or log_write panics in it or the machine stops: whatever it has logged, it
      leaves no trace. */
  lemma UnfinishedChunk(g: Log.Geometry, d: Log.Disk, c: Log.Disk, e: Log.Disk,
                        fs: Fs, v: Fs, ino: nat, off: nat, done: seq<Byte>, txns: Txns, writes: seq<Log.Write>, k: nat)
    requires OnDisk(g, d, fs) && ino < fs.ninodes && Chained(fs, v, ino, off, done, txns)
    requires Ran(g, d, txns, c) && Log.Lived(g, c, Log.Life(writes, Log.Logging(k)), e)
    ensures Log.Clean(g, e) && Shaped(fs) && |e| == fs.size
    ensures Consistent(Reload(fs, e)) && OthersKept(fs, Reload(fs, e), ino)
    ensures Spliced(Content(fs, ino), Content(Reload(fs, e), ino), off, done)
  {
    hide Chained, Log.Lived, BelowLog, Mapped, Synced, Content;
    RanState(g, d, fs, v, ino, off, done, txns, c);
    Log.LifeAtomic(g, c, Log.Life(writes, Log.Logging(k)), e);
    ComesUp(g, e, fs, v, ino, off, done, txns);
  }

  lemma FromHome(g: Log.Geometry, e: Log.Disk, w: Fs)
    requires OnDisk(g, e, w)
    ensures SameBelow(w, e, g.start)
  {
    forall s | 0 <= s < g.start ensures e[s] == w.blocks[s] {
      assert Log.Home(g, e)[s] == e[s] && w.blocks[..g.start][s] == w.blocks[s];
    }
  }

  lemma SameReload(fs: Fs, w: Fs, e: seq<Block>)
    requires Shaped(fs) && Shaped(w) && |e| == fs.size == w.size && fs.ninodes == w.ninodes
    ensures Reload(fs, e) == Reload(w, e)
  {
  }
}
