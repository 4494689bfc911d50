/** fs.c and the write loop of file.c as they run: balloc, bmap, readi, writei and
    filewrite over the sectors that bread returns. */
module FileSystem {
  import opened Blocks
  import opened BlockTree
  import opened Files
  import opened Supply
  import opened Writing
  import opened Budget
  import opened Options
  import Layout
  import Log

  class FileSystem {
    /** sb.size and sb.ninodes, and where the log starts */
    const size: nat
    const ninodes: nat
    const logstart: nat

    /** The sectors when the current transaction began, and what it has passed to
        log_write since, in order. */
    var base: seq<Block>
    var logged: seq<Log.Write>

    /** log_write has panicked on one of them. The code stops there; what the methods
        do after that is what it would have gone on to do. */
    var full: bool

    /** The in-memory inodes. */
    var inodes: seq<Inode>

    /** The most buffers that were held or dirty at any call of bget so far. */
    ghost var peak: nat

    /** No transaction is running. */
    constructor (size: nat, ninodes: nat, logstart: nat, base: seq<Block>, inodes: seq<Inode>)
      ensures Abs() == Fs(size, ninodes, base, inodes) && this.logstart == logstart && logged == [] && Counted()
    {
      this.size, this.ninodes, this.logstart := size, ninodes, logstart;
      this.base, this.inodes, this.logged, this.full, this.peak := base, inodes, [], false, 0;
    }

    /** Every sector as bread returns it: inside a transaction readers see its
        writes (`Log.RunView`). */
    function Blocks(): (r: seq<Block>)
      reads `base, `logged
    {
      Log.Apply(base, logged)
    }

    ghost function Abs(): (fs: Fs)
      reads `base, `logged, `inodes
    {
      Fs(size, ninodes, Blocks(), inodes)
    }

    /** The sectors logged so far. */
    ghost function Touched(): (r: set<nat>)
      reads `logged
    {
      Log.SectorsOf(logged)
    }

    ghost predicate Counted()
      reads `logged, `full
    {
      full <==> !Log.HasRoom(LOGROOM, logged)
    }

    ghost predicate OnePinned(before: nat)
      reads this
    {
      peak <= before || peak <= |Touched()| + 1
    }

    ghost predicate Pinned(before: nat, h: set<nat>)
      reads this
    {
      peak <= before || peak <= |h + Touched()|
    }

    /** bread, a change of the buffer to `b`, log_write, brelse, with the buffers of the
        sectors `h` held. log_write panics if the header, which lists each sector once,
        has no room; it calls bget for a sector of the log. */
    method LogWrite(s: nat, b: Block, ghost h: set<nat>)
      requires s < |Blocks()| && Coherent(b)
      requires Counted()
      modifies `logged, `full, `peak
      ensures Counted()
      ensures Abs() == SetBlock(old(Abs()), s, b)
      ensures full <==> old(full) || |old(Touched())| >= LOGROOM
      ensures Pinned(old(peak), h)
      ensures logged == old(logged) + [Log.Write(s, b)] && Touched() == old(Touched()) + {s}
    {
      Log.ApplyOne(base, logged, Log.Write(s, b));
      full := full || |Log.SectorsOf(logged)| >= LOGROOM;
      logged := logged + [Log.Write(s, b)];
      assert logged[..|logged| - 1] == old(logged);
      if |h + Touched()| > peak { peak := |h + Touched()|; }
    }

    /** balloc's inner loop: the first clear bit of the bitmap sector of `b`. */
    method FirstClear(b: nat) returns (bi: nat)
      requires Shaped(Abs()) && b < size && b % BPB == 0
      ensures bi <= BPB && b + bi <= size
      ensures forall c :: b <= c < b + bi ==> Used(Abs(), c)
      ensures bi < BPB && b + bi < size ==> !Used(Abs(), b + bi)
    {
      InOneSector(Abs(), b);
      var data := Blocks()[b / BPB + ninodes / IPB + 3].bytes;
      bi := 0;
      while bi < BPB && b + bi < size && BitAt(data, bi)
        invariant 0 <= bi <= BPB && b + bi <= size
        invariant forall c :: b <= c < b + bi ==> Used(Abs(), c)
      {
        assert Used(Abs(), b + bi);
        bi := bi + 1;
      }
    }

    /** Marks sector `b` in use and zeroes it (balloc's hit, with bzero). */
    method Take(b: Word, ghost h: set<nat>)
      requires Shaped(Abs()) && b < size && !Used(Abs(), b)
      requires Counted()
      modifies `logged, `full, `peak
      ensures Counted()
      ensures Abs() == Alloc(old(Abs()), b)
      ensures Touched() == old(Touched()) + {BBlock(old(Abs()), b), b as nat} && Pinned(old(peak), h)
    {
      hide Log.HasRoom, Log.Apply, Log.SectorsOf;
      var bblock := b / BPB + ninodes / IPB + 3;
      var d := MarkAt(Blocks()[bblock].bytes, b % BPB);
      BytesCoherent(d);
      LogWrite(bblock, OfBytes(d), h);
      ZeroCoherent();
      ghost var t := Touched();
      LogWrite(b, ZeroBlock(), h);
      MorePinned(h, t, Touched());
    }

    method Balloc(ghost h: set<nat>) returns (r: Option<Word>)
      requires Shaped(Abs())
      requires Counted()
      modifies `logged, `full, `peak
      ensures Counted()
      ensures r == FreeFrom(old(Abs()), 0)
      ensures r.None? ==> unchanged(this)
      ensures r.Some? ==> Abs() == Alloc(old(Abs()), r.value) && Pinned(old(peak), h)
      ensures r.Some? ==> Touched() == old(Touched()) + {BBlock(old(Abs()), r.value), r.value as nat}
    {
      hide Log.HasRoom, Log.Apply, Log.SectorsOf, BitAt;
      var b := 0;
      while b < size
        invariant b % BPB == 0 && unchanged(this)
        invariant forall c :: 0 <= c < b && c < size ==> Used(Abs(), c)
        decreases size - b
      {
        var bi := FirstClear(b);
        if bi < BPB && b + bi < size {
          FreeFromSkip(Abs(), 0, b + bi);
          Take(b + bi, h);
          return Some(b + bi);
        }
        b := b + BPB;
      }
      FreeFromSkip(Abs(), 0, size);
      r := None;
    }

    /** The sector in slot `k` of the inode; an empty slot gets a new one first. */
    method RootPtr(ino: nat, k: nat) returns (addr: Option<Word>)
      requires Owned(Abs()) && ino < ninodes && k < NADDRS
      requires Counted()
      modifies `inodes, `logged, `full, `peak
      ensures Counted()
      ensures addr.Some? <==> Fill(old(Abs()), Root(ino, k)).Some?
      ensures Ptr(old(Abs()), Root(ino, k)) != 0 ==> addr.Some? && unchanged(this)
      ensures addr.Some? ==>
        && Fill(old(Abs()), Root(ino, k)) == Some(Abs())
        && addr.value == Ptr(Abs(), Root(ino, k))
        && Touched() == old(Touched()) + FillTouched(old(Abs()), Root(ino, k)) && Pinned(old(peak), {})
    {
      ghost var x := Root(ino, k);
      assert InRange(Abs(), x);
      addr := Some(inodes[ino].addrs[k]);
      if addr.value == 0 {
        addr := Balloc({});
        if addr.Some? {
          FillEmpty(old(Abs()), x, addr.value);
          inodes := inodes[ino := SetAddr(inodes[ino], k, addr.value)];
        }
      }
    }

    /** Entry `e` of indirect block `c`, which is slot `x`; an empty one gets a new
        sector first, and the indirect block is logged. */
    method EntryPtr(c: Word, e: nat, ghost x: Slot, ghost h: set<nat>) returns (addr: Option<Word>)
      requires Owned(Abs()) && InRange(Abs(), x) && !x.Root? && e == Index(x)
      requires c == Ptr(Abs(), Parent(x)) && c != 0
      requires Counted()
      modifies `logged, `full, `peak
      ensures Counted()
      ensures addr.Some? <==> Fill(old(Abs()), x).Some?
      ensures Ptr(old(Abs()), x) != 0 ==> addr.Some? && unchanged(this)
      ensures addr.Some? ==>
        && Fill(old(Abs()), x) == Some(Abs())
        && addr.value == Ptr(Abs(), x)
        && Touched() == old(Touched()) + FillTouched(old(Abs()), x) && Pinned(old(peak), h)
    {
      hide Used, BitAt, Consistent, Free, Took, Log.HasRoom, Log.Apply, Log.SectorsOf;
      assert Marked(Abs(), c);
      addr := Some(Blocks()[c].words[e]);
      if addr.value == 0 {
        addr := Balloc(h + {c as nat});
        if addr.Some? {
          FillEmpty(old(Abs()), x, addr.value);
          ghost var t := Touched();
          LogWrite(c, OfWords(Blocks()[c].words[e := addr.value]), h);
          HeldPinned(h, c as nat, t, Touched());
        }
      }
    }

    /** None stands for the panics "balloc: out of blocks" and "bmap: out of range". */
    method Bmap(ino: nat, bn: nat) returns (addr: Option<Word>)
      requires Owned(Abs()) && ino < ninodes
      requires Counted()
      modifies `inodes, `logged, `full, `peak
      ensures Counted()
      ensures addr.Some? <==> bn < MAXFILE && BlockTree.Bmap(old(Abs()), ino, bn).Some?
      ensures bn < MAXFILE && MapOf(old(Abs()), ino, bn) != 0 ==> addr.Some? && unchanged(this)
      ensures addr.Some? ==>
        && BlockTree.Bmap(old(Abs()), ino, bn) == Some(Abs())
        && addr.value == MapOf(Abs(), ino, bn)
        && Touched() == old(Touched()) + ReachTouched(old(Abs()), SlotOf(ino, bn)) && OnePinned(old(peak))
      ensures addr.Some? ==> bn < 16650 && addr.value == Layout.Sectors(Abs(), ino)[bn]
    {
      if bn < NDIRECT {
        assert SlotOf(ino, bn) == Root(ino, bn);
        addr := BmapDirect(ino, bn);
        if addr.Some? { Layout.MapIsSector(Abs(), ino, bn); }
        return;
      }
      var bn1 := bn - NDIRECT;
      if bn1 < NINDIRECT {
        assert SlotOf(ino, bn) == Single(ino, bn1 / PTRS_PER_BLOCK, bn1 % PTRS_PER_BLOCK);
        addr := BmapSingle(ino, bn1 / PTRS_PER_BLOCK, bn1 % PTRS_PER_BLOCK);
        if addr.Some? { Layout.MapIsSector(Abs(), ino, bn); }
        return;
      }
      var bn2 := bn1 - NINDIRECT;
      if bn2 < NDOUBLE {
        assert SlotOf(ino, bn) == Leaf(ino, bn2 / PTRS_PER_BLOCK, bn2 % PTRS_PER_BLOCK);
        addr := BmapDouble(ino, bn2 / PTRS_PER_BLOCK, bn2 % PTRS_PER_BLOCK);
        if addr.Some? { Layout.MapIsSector(Abs(), ino, bn); }
        return;
      }
      addr := None;
    }

    method BmapDirect(ino: nat, k: nat) returns (addr: Option<Word>)
      requires Owned(Abs()) && InRange(Abs(), Root(ino, k))
      requires Counted()
      modifies `inodes, `logged, `full, `peak
      ensures Counted()
      ensures addr.Some? <==> Reach(old(Abs()), Root(ino, k)).Some?
      ensures Ptr(old(Abs()), Root(ino, k)) != 0 ==> addr.Some? && unchanged(this)
      ensures addr.Some? ==>
        && Reach(old(Abs()), Root(ino, k)) == Some(Abs())
        && addr.value == Ptr(Abs(), Root(ino, k))
        && Touched() == old(Touched()) + ReachTouched(old(Abs()), Root(ino, k)) && Pinned(old(peak), {})
    {
      addr := RootPtr(ino, k);
    }

    method BmapSingle(ino: nat, s: nat, e: nat) returns (addr: Option<Word>)
      requires Owned(Abs()) && InRange(Abs(), Single(ino, s, e))
      requires Counted()
      modifies `inodes, `logged, `full, `peak
      ensures Counted()
      ensures addr.Some? <==> Reach(old(Abs()), Single(ino, s, e)).Some?
      ensures Ptr(old(Abs()), Single(ino, s, e)) != 0 ==> addr.Some? && unchanged(this)
      ensures addr.Some? ==>
        && Reach(old(Abs()), Single(ino, s, e)) == Some(Abs())
        && addr.value == Ptr(Abs(), Single(ino, s, e))
        && Touched() == old(Touched()) + ReachTouched(old(Abs()), Single(ino, s, e)) && Pinned(old(peak), {})
    {
      hide Fill, FillTouched, Extends, Used, Log.HasRoom, Log.SectorsOf, Log.Apply;
      ReachStep(Abs(), Single(ino, s, e));
      var c := BmapDirect(ino, NDIRECT + s);
      if c.None? { return None; }
      ghost var t := Touched();
      addr := EntryPtr(c.value, e, Single(ino, s, e), {});
      if addr.Some? { MorePinned({}, t, Touched()); }
    }

    method BmapDouble(ino: nat, i: nat, e: nat) returns (addr: Option<Word>)
      requires Owned(Abs()) && InRange(Abs(), Leaf(ino, i, e))
      requires Counted()
      modifies `inodes, `logged, `full, `peak
      ensures Counted()
      ensures addr.Some? <==> Reach(old(Abs()), Leaf(ino, i, e)).Some?
      ensures Ptr(old(Abs()), Leaf(ino, i, e)) != 0 ==> addr.Some? && unchanged(this)
      ensures addr.Some? ==>
        && Reach(old(Abs()), Leaf(ino, i, e)) == Some(Abs())
        && addr.value == Ptr(Abs(), Leaf(ino, i, e))
        && Touched() == old(Touched()) + ReachTouched(old(Abs()), Leaf(ino, i, e)) && OnePinned(old(peak))
    {
      hide Fill, FillTouched, Extends, Used, Log.HasRoom, Log.SectorsOf, Log.Apply, Counted, BitAt, Reach;
      ReachStep(Abs(), Leaf(ino, i, e));
      var c := LoadDouble(ino, i);
      if c.None? { return None; }
      ghost var t, held := Touched(), {Ptr(Abs(), Root(ino, NDIRECT + NUM_INDIRECT)) as nat};
      addr := EntryPtr(c.value, e, Leaf(ino, i, e), held);
      if addr.Some? {
        MorePinned({}, t, Touched());
        OneMore(held, Touched());
      }
    }

    /** The doubly-indirect block and its entry `i`. */
    method LoadDouble(ino: nat, i: nat) returns (addr: Option<Word>)
      requires Owned(Abs()) && InRange(Abs(), Double(ino, i))
      requires Counted()
      modifies `inodes, `logged, `full, `peak
      ensures Counted()
      ensures addr.Some? <==> Reach(old(Abs()), Double(ino, i)).Some?
      ensures Ptr(old(Abs()), Double(ino, i)) != 0 ==> addr.Some? && unchanged(this)
      ensures addr.Some? ==>
        && Reach(old(Abs()), Double(ino, i)) == Some(Abs())
        && addr.value == Ptr(Abs(), Double(ino, i))
        && Touched() == old(Touched()) + ReachTouched(old(Abs()), Double(ino, i)) && Pinned(old(peak), {})
    {
      hide Fill, FillTouched, Extends, Used, Log.HasRoom, Log.SectorsOf, Log.Apply;
      ReachStep(Abs(), Double(ino, i));
      var c := BmapDirect(ino, NDIRECT + NUM_INDIRECT);
      if c.None? { return None; }
      ghost var t := Touched();
      addr := EntryPtr(c.value, i, Double(ino, i), {});
      if addr.Some? { MorePinned({}, t, Touched()); }
    }

    /** One iteration of readi: bmap, bread, memmove. */
    method ReadBlock(ino: nat, pos: nat, m: nat) returns (chunk: seq<Byte>)
      requires Consistent(Abs()) && ino < ninodes
      requires 0 < m && pos % BSIZE + m <= BSIZE && pos + m <= inodes[ino].size
      requires Counted()
      modifies `inodes, `logged, `full, `peak
      ensures Counted()
      ensures unchanged(this)
      ensures chunk == Content(Abs(), ino)[pos..pos + m]
    {
      BelowSize(Abs(), ino, pos);
      ReadChunk(Abs(), ino, pos, m);
      var bp := Bmap(ino, pos / BSIZE);
      chunk := Blocks()[bp.value].bytes[pos % BSIZE..pos % BSIZE + m];
    }

    /** readi of an ordinary file. It allocates nothing: every block below the size
        is mapped, so bmap only looks them up. */
    method Readi(ino: nat, off: Word, n: Word) returns (r: int, dst: seq<Byte>)
      requires Consistent(Abs()) && ino < ninodes
      requires Counted()
      modifies `inodes, `logged, `full, `peak
      ensures Counted()
      ensures unchanged(this)
      ensures off > inodes[ino].size || (off + n) % UINT < off ==> r == -1 && dst == []
      ensures off <= inodes[ino].size && (off + n) % UINT >= off ==>
        && 0 <= r == |dst| == (if off + n > inodes[ino].size then inodes[ino].size - off else n)
        && dst == Content(Abs(), ino)[off..off + r]
    {
      hide Log.HasRoom, Log.Apply, Log.SectorsOf, Owned, Mapped, Synced;
      InodeCount(Abs());
      dst := [];
      if off > inodes[ino].size || (off + n) % UINT < off { return -1, []; }
      var n1 := if off + n > inodes[ino].size then inodes[ino].size - off else n;
      var tot, pos := 0, off;
      ghost var c := Content(Abs(), ino);
      while tot < n1
        invariant 0 <= tot <= n1 && pos == off + tot
        invariant unchanged(this)
        invariant dst == c[off..pos]
      {
        var m := ChunkLength(pos, n1 - tot);
        var chunk := ReadBlock(ino, pos, m);
        SliceMore(c, off, pos, pos + m);
        dst := dst + chunk;
        tot, pos := tot + m, pos + m;
      }
      r := n1;
    }

    method StoreChunk(ino: nat, pos: nat, chunk: seq<Byte>, p: Word)
      requires Owned(Abs()) && ino < ninodes && pos % BSIZE + |chunk| <= BSIZE && InFile(Abs(), ino, pos)
      requires p == MapOf(Abs(), ino, pos / BSIZE) < size
      requires Counted()
      modifies `logged, `full, `peak
      ensures Counted()
      ensures Abs() == StoreBytes(old(Abs()), ino, pos, chunk) && Touched() == old(Touched()) + {p as nat}
      ensures Pinned(old(peak), {})
    {
      var d := Splice(Blocks()[p].bytes, pos % BSIZE, chunk);
      BytesCoherent(d);
      LogWrite(p, OfBytes(d), {});
    }

    /** bmap reads indirect blocks, with at most the doubly-indirect one held. */
    ghost method NoteReads()
      modifies `peak
      ensures OnePinned(old(peak))
    {
      if |Touched()| + 1 > peak { peak := |Touched()| + 1; }
    }

    /** One iteration of writei: bmap, bread, memmove, log_write. */
    method WriteBlock(ino: nat, pos: nat, chunk: seq<Byte>) returns (ok: bool)
      requires Owned(Abs()) && ino < ninodes && pos / BSIZE < MAXFILE && pos % BSIZE + |chunk| <= BSIZE
      requires Counted()
      modifies `inodes, `logged, `full, `peak
      ensures Counted()
      ensures ok <==> WriteStep(old(Abs()), ino, pos, chunk).Some?
      ensures ok ==> WriteStep(old(Abs()), ino, pos, chunk) == Some(Abs())
      ensures ok ==> Touched() == old(Touched()) + StepTouched(old(Abs()), ino, pos / BSIZE) && OnePinned(old(peak))
    {
      hide Log.HasRoom, Log.SectorsOf, Log.Apply, Used, Owned, Extends, ReachTouched, Ptr, InFile, StoreBytes, BitAt;
      NoteReads();
      var bp := Bmap(ino, pos / BSIZE);
      if bp.None? { return false; }
      StepFacts(old(Abs()), Abs(), ino, pos);
      ghost var t := Touched();
      StoreChunk(ino, pos, chunk, bp.value);
      MorePinned({}, old(Touched()), Touched());
      MorePinned({}, t, Touched());
      ok := true;
    }

    /** iupdate */
    method WriteInode(ino: nat)
      requires Shaped(Abs()) && ino < ninodes
      requires Counted()
      modifies `logged, `full, `peak
      ensures Counted()
      ensures Abs() == Iupdate(old(Abs()), ino)
      ensures |logged| == |old(logged)| + 1 && logged[..|old(logged)|] == old(logged)
      ensures logged[|old(logged)|].sector == IBlock(ino) && (peak <= old(peak) || peak <= |old(Touched())| + 1)
    {
      LogWrite(ino / IPB + 2, PutDinode(Blocks()[ino / IPB + 2], ino % IPB, inodes[ino]), {});
      OneMore({IBlock(ino)}, old(Touched()));
    }

    /** One round of writei's loop. */
    method WriteNext(ino: nat, pos: nat, rest: seq<Byte>) returns (ok: bool, m: nat)
      requires Owned(Abs()) && ino < ninodes && rest != [] && pos + |rest| <= MAXFILE * BSIZE
      requires Counted()
      modifies `inodes, `logged, `full, `peak
      ensures Counted()
      ensures 0 < m <= |rest|
      ensures !ok ==> WriteData(old(Abs()), ino, pos, rest).None?
      ensures ok ==> Owned(Abs()) && WriteData(Abs(), ino, pos + m, rest[m..]) == WriteData(old(Abs()), ino, pos, rest)
      ensures ok ==>
        Touched() + DataTouched(Abs(), ino, pos + m, rest[m..]) == old(Touched()) + DataTouched(old(Abs()), ino, pos, rest)
      ensures ok ==> old(Touched()) <= Touched() && OnePinned(old(peak))
    {
      hide WriteStep, StepTouched, Log.HasRoom, Log.SectorsOf, Log.Apply;
      m := ChunkLength(pos, |rest|);
      ok := WriteBlock(ino, pos, rest[..m]);
      if ok {
        UnionAssoc(old(Touched()), StepTouched(old(Abs()), ino, pos / BSIZE), DataTouched(Abs(), ino, pos + m, rest[m..]));
      }
    }

    /** writei's loop */
    method WriteBlocks(ino: nat, src: seq<Byte>, off: Word) returns (ok: bool)
      requires Owned(Abs()) && ino < ninodes && off + |src| <= MAXFILE * BSIZE
      requires Counted()
      modifies `inodes, `logged, `full, `peak
      ensures Counted()
      ensures ok <==> WriteData(old(Abs()), ino, off, src).Some?
      ensures ok ==> WriteData(old(Abs()), ino, off, src) == Some(Abs())
      ensures ok ==> Touched() == old(Touched()) + DataTouched(old(Abs()), ino, off, src) && OnePinned(old(peak))
    {
      hide WriteStep, StepTouched, Used, Log.HasRoom, Log.Apply, Log.SectorsOf;
      var rest, pos := src, off;
      while rest != []
        invariant pos + |rest| == off + |src| && Owned(Abs()) && Counted()
        invariant WriteData(Abs(), ino, pos, rest) == WriteData(old(Abs()), ino, off, src)
        invariant Touched() + DataTouched(Abs(), ino, pos, rest) == old(Touched()) + DataTouched(old(Abs()), ino, off, src)
        invariant OnePinned(old(peak))
        decreases |rest|
      {
        var m;
        ghost var t := Touched();
        ok, m := WriteNext(ino, pos, rest);
        if !ok { return; }
        MorePinned({}, t, Touched());
        rest, pos := rest[m..], pos + m;
      }
      ok := true;
    }

    /** writei panics exactly if it is not refused, and fewer sectors are free than
        slots on the way to its blocks are empty, or the log has no room for what it
        logs. */
    method Writei(ino: nat, src: seq<Byte>, off: Word) returns (r: WriteResult)
      requires Consistent(Abs()) && ino < ninodes && |src| < UINT
      requires Counted()
      modifies `inodes, `logged, `full, `peak
      ensures Counted()
      ensures r.Refused? <==> Refuses(old(inodes[ino].size), off, |src|)
      ensures r.Refused? ==> unchanged(this)
      ensures r.Panicked? <==> !r.Refused? && (!Enough(old(Abs()), ino, off, |src|) || full)
      ensures !r.Overwrote? && (r.Written? ==> r.n == |src|)
      ensures !r.Refused? && Enough(old(Abs()), ino, off, |src|) ==>
        && WroteAs(old(logged), old(Abs()), logged, Abs(), ino, off, src)
        && (peak <= old(peak) || peak <= |old(Touched()) + DataTouched(old(Abs()), ino, off, src)| + 1)
    {
      hide WriteData, DataTouched, ByteAt, Enough, Mapped, Synced, Log.HasRoom, Log.Apply, Log.SectorsOf, Counted;
      if off > inodes[ino].size || (off + |src|) % UINT < off { return Refused; }
      if (off + |src|) % UINT > MAXFILE * BSIZE { return Refused; }
      ghost var fs := Abs();
      NoWrap(off, |src|);
      DataEnough(fs, ino, off, src);
      var ok := WriteBlocks(ino, src, off);
      if !ok { return Panicked; }
      ghost var w, l := Abs(), logged;
      DataWrote(fs, w, ino, off, src);
      if |src| > 0 && off + |src| > inodes[ino].size {
        inodes := inodes[ino := Inode(inodes[ino].meta0, inodes[ino].meta1, off + |src|, inodes[ino].addrs)];
        WriteInode(ino);
      }
      assert Abs() == Finish(w, ino, off, |src|);
      assert l[..|l|] == l;
      WriteContent(fs, w, ino, off, src);
      r := if full then Panicked else Written(|src|);
    }

    /** What writei stored, readi finds. */
    method ReadBack(ino: nat, src: seq<Byte>, off: Word) returns (r: WriteResult, dst: seq<Byte>)
      requires Consistent(Abs()) && ino < ninodes && |src| < UINT
      requires Counted()
      modifies `inodes, `logged, `full, `peak
      ensures r.Written? ==> dst == src
    {
      hide WriteLogged, Enough, Owned, Mapped, Synced, ByteAt, OthersKept, Refuses;
      InodeCount(Abs());
      ghost var c := Content(Abs(), ino);
      r := Writei(ino, src, off);
      dst := [];
      if r.Written? {
        OverwriteReads(c, off, src);
        InodeCount(Abs());
        var n;
        n, dst := Readi(ino, off, |src|);
      }
    }

    /** One chunk of filewrite: begin_trans, writei, commit_trans. While no other process
        holds a buffer, it never runs out of them, commit_trans included. */
    method WriteChunk(ino: nat, pos: Word, chunk: seq<Byte>, n: nat) returns (r: WriteResult, ghost t: Txn)
      requires Consistent(Abs()) && BelowLog(Abs(), logstart) && ino < ninodes && 0 < |chunk| == n <= MAXCHUNK
      modifies this
      ensures r.Refused? <==> Refuses(old(inodes[ino].size), pos, n)
      ensures r.Refused? ==> Abs() == old(Abs())
      ensures !r.Refused? ==> (r.Panicked? <==> !Supplied(old(Abs()), ino, pos, n) || TooBig(old(Abs()), ino, pos, n))
      ensures !r.Refused? ==> (r.Written? <==> Takes(old(Abs()), ino, pos, n, logstart))
      ensures r.Written? ==> r.n == n && Consistent(Abs()) && BelowLog(Abs(), logstart)
      ensures r.Written? ==> ChunkDone(t, old(Abs()), Abs(), ino, pos, chunk)
      ensures r.Written? ==> peak < NBUF
    {
      hide BelowLog, Enough, TooBig, ClearOfLog, WriteLogged, BlocksEnough, Refuses, Mapped, Synced;
      ghost var fs := Abs();
      base, logged, full, peak := Blocks(), [], false, 0;
      assert Abs() == fs;
      r := Writei(ino, chunk, pos);
      t := Txn(fs, Abs(), pos, chunk, logged);
      if r.Refused? { return; }
      AcceptedChunk(fs, ino, pos, n);
      if Supplied(fs, ino, pos, n) {
        ChunkFitsIff(t, ino);
        ChunkTaken(t, ino, logstart);
        if !TooBig(fs, ino, pos, n) { ChunkPins(t, ino); }
        if |Touched()| > peak { peak := |Touched()|; }
      }
      if r.Written? && !Log.AtHome(logstart, logged) { r := Overwrote; }
    }

    /** One round of filewrite's loop, with `done`, which is src[..i], written. */
    method NextChunk(ino: nat, off: Word, src: seq<Byte>, i: nat, ghost fs: Fs, ghost done: seq<Byte>, ghost txns: Txns)
      returns (r: WriteResult, n1: nat, ghost more: Txns)
      requires Consistent(Abs()) && BelowLog(Abs(), logstart) && ino < ninodes
      requires i < |src| && off + i < UINT && |done| == i && Chained(fs, Abs(), ino, off, done, txns)
      requires AllTaken(txns, ino, logstart)
      modifies this
      ensures n1 == Piece(|src|, i)
      ensures r.Refused? <==> Refuses(old(inodes[ino].size), off + i, n1)
      ensures r.Refused? ==> Abs() == old(Abs())
      ensures !r.Refused? ==> (r.Panicked? <==> ChunkPanics(old(Abs()), ino, off + i, n1))
      ensures !r.Refused? ==> (r.Written? <==> Takes(old(Abs()), ino, off + i, n1, logstart))
      ensures !r.Written? ==> more == txns
      ensures AllTaken(more, ino, logstart)
      ensures r.Written? ==> Consistent(Abs()) && BelowLog(Abs(), logstart)
      ensures r.Written? ==> Chained(fs, Abs(), ino, off, done + src[i..i + n1], more)
    {
      hide ChunkLogged, Consistent, BelowLog, Supplied, TooBig, Takes;
      n1 := if |src| - i > MAXCHUNK then MAXCHUNK else |src| - i;
      ghost var t := Txn(fs, fs, 0, [], []);
      r, t := WriteChunk(ino, off + i, src[i..i + n1], n1);
      more := if r.Written? then AndThen(txns, done, t) else txns;
    }

    /** filewrite on a file whose offset is `off`; `pos` is the offset afterwards.
        Each chunk is one transaction, collected in `txns`; `last` is the state after
        the last complete one. It gets to all chunks up to the first one that ends
        beyond the largest file, exactly if the log takes each of them; this depends
        only on the state before. */
    method Filewrite(ino: nat, off: Word, src: seq<Byte>) returns (r: WriteResult, pos: Word, ghost txns: Txns, ghost last: Fs)
      requires Consistent(Abs()) && BelowLog(Abs(), logstart) && ino < ninodes && |src| < 0x8000_0000
      modifies this
      ensures var a := Accepted(old(inodes[ino].size), off, |src|);
        && (r.Written? || r.Refused? <==> TakesTo(old(Abs()), ino, off, a, a, logstart))
        && (r.Written? || r.Refused? ==> pos == off + a && last == Abs())
        && (r.Written? ==> r.n == |src|) && (r.Refused? ==> a < |src|)
      ensures off <= pos <= off + |src|
      ensures r.Panicked? || r.Overwrote? ==> pos < off + |src| && !Takes(last, ino, pos, Piece(|src|, pos - off), logstart)
      ensures r.Panicked? ==> ChunkPanics(last, ino, pos, Piece(|src|, pos - off))
      ensures r.Overwrote? ==> !ChunkPanics(last, ino, pos, Piece(|src|, pos - off))
      ensures Progress(old(Abs()), last, ino, off, src[..pos - off], txns)
      ensures AllTaken(txns, ino, logstart) && BelowLog(last, logstart)
    {
      hide ChunkDone, Owned, Mapped, Synced, Progress, Refuses, Accepted, BelowLog, Takes, ChunkPanics, TakesTo, Log.Apply, Log.SectorsOf;
      txns := NoTxns;
      pos := off;
      var i := 0;
      ghost var fs, done := Abs(), [];
      InodeCount(fs);
      ghost var a := Accepted(fs.inodes[ino].size, off, |src|);
      AcceptedStart(fs, ino, off, |src|);
      TakesNone(fs, ino, off, a, logstart);
      while i < |src|
        invariant 0 <= i <= a <= |src| && pos == off + i && done == src[..i]
        invariant i == |src| || i % MAXCHUNK == 0
        invariant Consistent(Abs()) && BelowLog(Abs(), logstart)
        invariant Chained(fs, Abs(), ino, off, done, txns) && AllTaken(txns, ino, logstart)
        invariant TakesTo(fs, ino, off, i, a, logstart)
      {
        var n1;
        ghost var sofar := txns;
        last := Abs();
        ChainedSize(fs, last, ino, off, done, txns);
        r, n1, txns := NextChunk(ino, off, src, i, fs, done, txns);
        AcceptedStep(fs.inodes[ino].size, last.inodes[ino].size, off, |src|, i, n1);
        if r.Refused? {
          ChainedProgress(fs, last, ino, off, done, txns);
          return;
        }
        ChunkTurn(fs, last, ino, off, done, sofar, n1, a, logstart);
        if !r.Written? {
          ChainedProgress(fs, last, ino, off, done, txns);
          return;
        }
        SliceMore(src, 0, i, i + n1);
        done := done + src[i..i + n1];
        pos, i := pos + n1, i + n1;
      }
      last := Abs();
      r := Written(|src|);
      ChainedProgress(fs, last, ino, off, done, txns);
    }
  }

  lemma MorePinned(h: set<nat>, t: set<nat>, u: set<nat>)
    requires t <= u
    ensures |h + t| <= |h + u| && |t| <= |u|
  {
    SubsetSize(h + t, h + u);
    SubsetSize(t, u);
  }

  /** A buffer that is held and logged in the end counts once. */
  lemma HeldPinned(h: set<nat>, c: nat, t: set<nat>, u: set<nat>)
    requires u == t + {c}
    ensures |(h + {c}) + t| == |h + u|
  {
    assert (h + {c}) + t == h + u;
  }

  lemma OneMore(h: set<nat>, t: set<nat>)
    requires |h| == 1
    ensures |h + t| <= |t| + 1 && |{} + (t + h)| <= |t| + 1
  {
    assert h + t == t + (h - t) && {} + (t + h) == h + t;
    SubsetSize(h - t, h);
  }
}
