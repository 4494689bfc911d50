/** copyuvm of vm.c: fork's copy of an address space, with its kernel half. */
module CopyVm {
  import opened Options
  import opened PageTable
  import opened KernelMap

  ghost predicate AllMapped(m: Mem, d: nat, v: nat, w: nat) { forall u :: v <= u < w ==> Lookup(m, d, u).Present? }

  ghost predicate CanCopy(m: Mem, ds: set<nat>, d: nat, e: nat, v: nat, w: nat) {
    && Owned(m, ds) && d in ds && e in ds && d != e && v <= w <= USER_PAGES
    && Clear(m, e, v, w) && AllMapped(m, d, v, w)
  }

  lemma SourceOk(m: Mem, ds: set<nat>, d: nat, v: nat)
    requires Owned(m, ds) && d in ds && v < USER_PAGES && Lookup(m, d, v).Present?
    ensures Lookup(m, d, v).frame < |m.pages| && m.pages[Lookup(m, d, v).frame].Data?
  {
    assert InRange(ds, User(d, v)) && SlotOk(m, User(d, v));
  }

  lemma CanCopyOn(m: Mem, n: Mem, ds: set<nat>, d: nat, e: nat, v: nat, w: nat)
    requires CanCopy(m, ds, d, e, v, w) && v < w && Owned(n, ds) && SameElsewhere(m, n, ds, e, v, v + 1)
    ensures CanCopy(n, ds, d, e, v + 1, w)
  {
    ClearKept(m, n, ds, e, v, v + 1, w);
    forall u | v + 1 <= u < w ensures Lookup(n, d, u).Present? {
      assert InRange(ds, User(d, u)) && SameUser(m, n, User(d, u));
    }
  }

  /** copyuvm's loop over pages v .. w, from space d to space e. */
  ghost function Copy(m: Mem, ds: set<nat>, d: nat, e: nat, v: nat, w: nat): (r: Grown)
    requires CanCopy(m, ds, d, e, v, w)
    decreases w - v
  {
    if v == w then Grown(true, false, v, m)
    else
      var src := Lookup(m, d, v);
      SourceOk(m, ds, d, v);
      MapNewOk(m, ds, e, v, m.pages[src.frame], src.flags);
      match MapNew(m, ds, e, v, m.pages[src.frame], src.flags)
      case NoFrame => Grown(false, false, v, m)
      case NoTable(n) => Grown(false, true, v, n)
      case Mapped(n) =>
        CanCopyOn(m, n, ds, d, e, v, w);
        Copy(n, ds, d, e, v + 1, w)
  }

  /** Page u of e shows the bytes of page u of d, with the same rights, in a frame that
      was free. */
  ghost predicate CopyOf(m: Mem, r: Mem, d: nat, e: nat, u: nat) {
    var x, y := Lookup(m, d, u), Lookup(r, e, u);
    && x.Present? && y.Present? && y.flags == x.flags && Free(m, y.frame)
    && x.frame < |m.pages| && y.frame < |r.pages| && r.pages[y.frame] == m.pages[x.frame]
  }

  ghost predicate Copied(m: Mem, g: Grown, ds: set<nat>, d: nat, e: nat, v: nat, w: nat) {
    && Owned(g.m, ds) && SameElsewhere(m, g.m, ds, e, v, w) && v <= g.top <= w && Contiguous(g.m, e, g.top)
    && (forall u :: v <= u < g.top ==> CopyOf(m, g.m, d, e, u))
    && (g.ok <==> g.top == w) && (g.ok <==> |m.free| >= Need(m, e, v, w))
    && (g.leaked <==> RunsShort(m, e, v, w)) && (g.ok ==> !g.leaked)
    && (if g.leaked then LosesOne(m, g.m, ds) else NothingLost(m, g.m, ds, ds))
  }

  /** Some frame of the free list has disappeared. */
  ghost predicate LosesOne(m: Mem, r: Mem, ds: set<nat>) { exists f: nat :: Free(m, f) && !Accounted(r, ds, f) }

  lemma CopiedMore(m: Mem, n: Mem, g: Grown, ds: set<nat>, d: nat, e: nat, v: nat, w: nat)
    requires CanCopy(m, ds, d, e, v, w) && v < w && Copied(n, g, ds, d, e, v + 1, w)
    requires Lookup(m, d, v).frame < |m.pages|
    requires MappedNew(m, n, ds, e, v, m.pages[Lookup(m, d, v).frame], Lookup(m, d, v).flags) && NothingLost(m, n, ds, ds)
    ensures Copied(m, g, ds, d, e, v, w)
  {
    SameTwice(m, n, g.m, ds, e, v, v + 1, w);
    NeedNext(m, n, e, v, w);
    RunsShortLater(m, n, e, v, w);
    if g.leaked {
      var f: nat :| Free(n, f) && !Accounted(g.m, ds, f);
      var k :| 0 <= k < |n.free| && n.free[k] == f;
      assert m.free[k] == f;
    }
    assert InRange(ds, User(e, v)) && SameUser(n, g.m, User(e, v));
    assert Free(m, Top(m)) by { assert m.free[|m.free| - 1] == Top(m); }
    forall u | v <= u < g.top ensures CopyOf(m, g.m, d, e, u) {
      SourceOk(m, ds, d, u);
      if u > v {
        assert CopyOf(n, g.m, d, e, u);
        assert InRange(ds, User(d, u)) && SameUser(m, n, User(d, u));
        var k :| 0 <= k < |n.free| && n.free[k] == Lookup(g.m, e, u).frame;
        assert m.free[k] == n.free[k];
      }
    }
  }

  lemma CopiedLeak(m: Mem, n: Mem, ds: set<nat>, d: nat, e: nat, v: nat, w: nat)
    requires CanCopy(m, ds, d, e, v, w) && v < w && Contiguous(m, e, v) && |m.free| == 1 && Cost(m, e, v) == 2
    requires Owned(n, ds) && SameElsewhere(m, n, ds, e, v, v) && !Accounted(n, ds, Top(m))
    ensures Copied(m, Grown(false, true, v, n), ds, d, e, v, w)
  {
    assert ShortAt(m, e, v, v, |m.free|);
    assert m.free[0] == Top(m) && Free(m, Top(m));
    SameContiguous(m, n, ds, e, v);
    SameWider(m, n, ds, e, v, v, w);
  }

  lemma {:induction false} CopyExact(m: Mem, ds: set<nat>, d: nat, e: nat, v: nat, w: nat)
    requires CanCopy(m, ds, d, e, v, w) && Contiguous(m, e, v)
    ensures Copied(m, Copy(m, ds, d, e, v, w), ds, d, e, v, w)
    decreases w - v
  {
    hide Lookup, Owned, Cost, Frame, Accounted;
    if v < w {
      SourceOk(m, ds, d, v);
      var p, fl := m.pages[Lookup(m, d, v).frame], Lookup(m, d, v).flags;
      MapNewOk(m, ds, e, v, p, fl);
      var s := MapNew(m, ds, e, v, p, fl);
      if s.NoTable? {
        assert m.free[0] == Top(m) && Free(m, Top(m));
        MapNewAccounted(m, ds, e, v, p, fl, Top(m));
        CopiedLeak(m, s.m, ds, d, e, v, w);
      } else if s.Mapped? {
        CanCopyOn(m, s.m, ds, d, e, v, w);
        MappedContiguous(m, s.m, ds, e, v);
        MapNewKeeps(m, ds, e, v, p, fl);
        CopyExact(s.m, ds, d, e, v + 1, w);
        CopiedMore(m, s.m, Copy(s.m, ds, d, e, v + 1, w), ds, d, e, v, w);
      }
    }
  }

  lemma {:induction false} DropBack(o: Mem, m: Mem, es: set<nat>, d: nat, i: nat, f: nat) returns (j: nat)
    requires Dropping(o, m, es, d, i) && i <= ENTRIES && Free(FreeTables(m, d, i), f)
    ensures Free(m, f) || (j < ENTRIES && EntryAt(o, d, j).Present? && EntryAt(o, d, j).frame == f)
    decreases ENTRIES - i
  {
    j := 0;
    if i < ENTRIES {
      assert EntryAt(m, d, i) == EntryAt(o, d, i);
      if EntryAt(o, d, i).Present? {
        var t := EntryAt(o, d, i).frame;
        DroppingStep(o, m, es, d, i);
        j := DropBack(o, Push(m, t), es, d, i + 1, f);
        PushFree(m, t, f);
        if f == t { j := i; }
      } else {
        j := DropBack(o, m, es, d, i + 1, f);
      }
    }
  }

  /** freevm brings no frame from nowhere. */
  lemma FreeVmBack(m: Mem, ds: set<nat>, d: nat, f: nat)
    requires Owned(m, ds) && d in ds
    requires Accounted(FreeVm(m, ds, d), ds - {d}, f)
    ensures Accounted(m, ds, f)
  {
    var es, o := ds - {d}, Shrink(m, ds, d, 0, USER_PAGES);
    var t, r := FreeTables(o, d, 0), FreeVm(m, ds, d);
    FreeVmDefined(m, ds, d);
    ShrinkAll(m, ds, d);
    DroppingStart(o, ds, d);
    if Used(r, es, f) {
      var x :| InRange(es, x) && Frame(r, x) == Some(f);
      FreeVmOthers(m, ds, d, x);
      assert InRange(ds, x) && Frame(m, x) == Some(f);
    } else {
      PushFree(t, d, f);
      if f == d {
        assert InRange(ds, Dir(d)) && Frame(m, Dir(d)) == Some(f);
      } else {
        var j := DropBack(o, o, es, d, 0, f);
        if Free(o, f) {
          ShrinkBack(m, ds, d, 0, USER_PAGES, f);
        } else {
          ShrinkFrame(m, ds, d, 0, USER_PAGES, Tab(d, j));
          assert InRange(ds, Tab(d, j)) && Frame(m, Tab(d, j)) == Some(f);
        }
      }
    }
  }

  /** ceiling of v / 1024: the page tables for pages 0 .. v */
  function Tables(v: nat): (n: nat) { (v + ENTRIES - 1) / ENTRIES }

  lemma {:induction false} LaterEmpty(m: Mem, e: nat, u: nat, w: nat)
    requires 0 < u <= w <= USER_PAGES && forall j: nat :: j < USER_PAGES / ENTRIES ==> EntryAt(m, e, j) == Absent
    ensures LaterNeed(m, e, u, w) == (w - u) + (Tables(w) - Tables(u))
    decreases w - u
  {
    if u < w { LaterEmpty(m, e, u + 1, w); }
  }

  lemma NeedEmpty(m: Mem, e: nat, w: nat)
    requires w <= USER_PAGES && forall j: nat :: j < USER_PAGES / ENTRIES ==> EntryAt(m, e, j) == Absent
    ensures Need(m, e, 0, w) == w + Tables(w)
  {
    if w > 0 { LaterEmpty(m, e, 1, w); }
  }

  /** A supply of so many frames runs out between a page and its table. */
  predicate CopyRunsShort(frames: nat, w: nat) {
    frames >= 1 && (frames - 1) % (ENTRIES + 1) == 0 && (frames - 1) / (ENTRIES + 1) < Tables(w)
  }

  lemma ShortCount(t: nat)
    ensures Tables(ENTRIES * t) == t && (ENTRIES * t) % ENTRIES == 0
    ensures ((ENTRIES + 1) * t) % (ENTRIES + 1) == 0 && (ENTRIES + 1) * t / (ENTRIES + 1) == t
  {
  }

  lemma ShortWhen(m: Mem, e: nat, w: nat)
    requires w <= USER_PAGES && forall j: nat :: j < USER_PAGES / ENTRIES ==> EntryAt(m, e, j) == Absent
    ensures RunsShort(m, e, 0, w) <==> CopyRunsShort(|m.free|, w)
  {
    if RunsShort(m, e, 0, w) {
      var u :| 0 <= u < w && ShortAt(m, e, 0, u, |m.free|);
      var t := u / ENTRIES;
      assert u == ENTRIES * t;
      NeedEmpty(m, e, u);
      ShortCount(t);
    }
    if CopyRunsShort(|m.free|, w) {
      var t := (|m.free| - 1) / (ENTRIES + 1);
      ShortCount(t);
      assert ENTRIES * t < w;
      NeedEmpty(m, e, ENTRIES * t);
      assert ShortAt(m, e, 0, ENTRIES * t, |m.free|);
    }
  }

  // ------------------------------------------------------------ whole copyuvm

  /** The first page of v .. w that is not mapped, or w. */
  function Gap(m: Mem, d: nat, v: nat, w: nat): (u: nat)
    requires v <= w
    ensures v <= u <= w && (u < w ==> Lookup(m, d, u) == Absent)
    decreases w - v
  {
    if v == w || !Lookup(m, d, v).Present? then v else Gap(m, d, v + 1, w)
  }

  lemma {:induction false} MappedToGap(m: Mem, d: nat, v: nat, w: nat)
    requires v <= w
    ensures AllMapped(m, d, v, Gap(m, d, v, w))
    decreases w - v
  {
    if v < w && Lookup(m, d, v).Present? { MappedToGap(m, d, v + 1, w); }
  }

  /** copyuvm returns a directory, or nothing, or panics at an unmapped page. */
  datatype Forked = Child(dir: nat, m: Mem) | NoMemory(m: Mem) | PanicUnmapped

  /** copyuvm of pages 0 .. Up(sz) of space d. */
  ghost function CopyUvm(m: Mem, ds: set<nat>, d: nat, kmap: seq<Region>, sz: nat): (r: Forked)
    requires Owned(m, ds) && d in ds && AllInKernel(kmap) && sz < KERNBASE
  {
    var s := SetupKvm(m, ds, kmap);
    if s.dir.None? then NoMemory(s.m)
    else
      var e, gap := s.dir.value, Gap(m, d, 0, Up(sz));
      CopyStart(m, s.m, ds, d, e, kmap, Up(sz));
      var g := Copy(s.m, ds + {e}, d, e, 0, gap);
      CopyExact(s.m, ds + {e}, d, e, 0, gap);
      if !g.ok then NoMemory(FreeVm(g.m, ds + {e}, e))
      else if gap < Up(sz) then PanicUnmapped
      else Child(e, g.m)
  }

  lemma CopyStart(m: Mem, n: Mem, ds: set<nat>, d: nat, e: nat, kmap: seq<Region>, w: nat)
    requires Owned(m, ds) && d in ds && AllInKernel(kmap) && w <= USER_PAGES && SetupKvm(m, ds, kmap) == NewDir(Some(e), n)
    ensures CanCopy(n, ds + {e}, d, e, 0, Gap(m, d, 0, w)) && Contiguous(n, e, 0) && Started(m, n, ds, e, kmap)
  {
    SetupExact(m, ds, kmap);
    MappedToGap(m, d, 0, w);
    var gap := Gap(m, d, 0, w);
    ContiguousClear(n, e, 0, gap);
    forall u | 0 <= u < gap ensures Lookup(n, d, u).Present? { assert InRange(ds, User(d, u)) && SameUser(m, n, User(d, u)); }
  }

  /** The frames for setupkvm, w pages and their tables. */
  ghost function CopyFrames(kmap: seq<Region>, w: nat): (n: nat) { KernelFrames(kmap) + w + Tables(w) }

  /** setupkvm fails halfway, or the supply runs out between a page and its table. */
  ghost predicate CopyLoses(frames: nat, kmap: seq<Region>, w: nat) {
    if frames < KernelFrames(kmap) then frames > 0 else CopyRunsShort(frames - KernelFrames(kmap), w)
  }

  /** copyuvm, exactly. It makes a child if and only if all pages are mapped and there
      are frames for the directory, the kernel's page tables, the pages and their
      tables; the child is a byte-equal copy on frames of its own, and the parent and
      all others are unchanged. It panics if and only if some page is not mapped and
      the frames go that far. Otherwise all user memory is as before, and frames are
      lost if and only if setupkvm got some but not all it needs, or the supply ran out
      between a page and its table. */
  lemma CopyUvmExact(m: Mem, ds: set<nat>, d: nat, kmap: seq<Region>, sz: nat)
    requires Owned(m, ds) && d in ds && AllInKernel(kmap) && sz < KERNBASE
    ensures var r, w, gap := CopyUvm(m, ds, d, kmap, sz), Up(sz), Gap(m, d, 0, Up(sz));
      && (r.Child? <==> gap == w && |m.free| >= CopyFrames(kmap, w))
      && (r.PanicUnmapped? <==> gap < w && |m.free| >= CopyFrames(kmap, gap))
      && (r.Child? ==> CopyMade(m, r.m, ds, d, r.dir, w))
      && (r.NoMemory? ==> Owned(r.m, ds) && SameUsers(m, r.m, ds))
      && (r.NoMemory? ==> (NothingLost(m, r.m, ds, ds) <==> !CopyLoses(|m.free|, kmap, gap)))
  {
    hide Owned, Accounted, KernelPart, Contiguous, CopyRunsShort, Copied, CanCopy, Gap, TablesOf;
    SetupExact(m, ds, kmap);
    var s, gap := SetupKvm(m, ds, kmap), Gap(m, d, 0, Up(sz));
    if s.dir.None? {
      SetupLost(m, s.m, ds);
    } else {
      var e := s.dir.value;
      CopyStart(m, s.m, ds, d, e, kmap, Up(sz));
      CopyExact(s.m, ds + {e}, d, e, 0, gap);
      var g := Copy(s.m, ds + {e}, d, e, 0, gap);
      CopyCount(s.m, g, ds + {e}, d, e, gap);
      if !g.ok {
        CopyFails(m, s.m, g, ds, d, e, kmap, gap);
      } else if gap == Up(sz) {
        MappedToGap(m, d, 0, Up(sz));
        CopySucceeds(m, s.m, g, ds, d, e, kmap, gap);
      }
    }
  }

  lemma SetupLost(m: Mem, r: Mem, ds: set<nat>)
    requires forall f: nat :: Free(m, f) ==> !Accounted(r, ds, f)
    requires m.free == [] ==> r == m
    ensures NothingLost(m, r, ds, ds) <==> m.free == []
  {
    if m.free != [] { assert m.free[0] == m.free[0] && Free(m, m.free[0]) && Accounted(m, ds, m.free[0]); }
  }

  lemma CopyCount(n: Mem, g: Grown, ds: set<nat>, d: nat, e: nat, w: nat)
    requires Copied(n, g, ds, d, e, 0, w) && w <= USER_PAGES
    requires forall j: nat :: j < USER_PAGES / ENTRIES ==> EntryAt(n, e, j) == Absent
    ensures g.ok <==> |n.free| >= w + Tables(w)
    ensures g.leaked <==> CopyRunsShort(|n.free|, w)
  {
    NeedEmpty(n, e, w);
    ShortWhen(n, e, w);
  }

  ghost predicate CopyMade(m: Mem, r: Mem, ds: set<nat>, d: nat, e: nat, w: nat) {
    && e !in ds && Owned(r, ds + {e}) && Contiguous(r, e, w) && NothingLost(m, r, ds, ds + {e})
    && (forall u :: 0 <= u < w ==> CopyOf(m, r, d, e, u))
    && SameUsers(m, r, ds)
  }

  lemma FreePrefix(m: Mem, n: Mem, k: nat, f: nat)
    requires k <= |m.free| && n.free == m.free[..k] && Free(n, f)
    ensures Free(m, f)
  {
    var i :| 0 <= i < |n.free| && n.free[i] == f;
    assert m.free[i] == f;
  }

  lemma CopySucceeds(m: Mem, n: Mem, g: Grown, ds: set<nat>, d: nat, e: nat, kmap: seq<Region>, w: nat)
    requires Owned(m, ds) && d in ds && w <= USER_PAGES && AllMapped(m, d, 0, w) && Started(m, n, ds, e, kmap)
    requires g.ok && Copied(n, g, ds + {e}, d, e, 0, w)
    ensures CopyMade(m, g.m, ds, d, e, w)
  {
    hide KernelPart, KernelFrames;
    forall u | 0 <= u < w ensures CopyOf(m, g.m, d, e, u) {
      assert CopyOf(n, g.m, d, e, u);
      SourceOk(m, ds, d, u);
      assert InRange(ds, User(d, u)) && SameUser(m, n, User(d, u));
      FreePrefix(m, n, |n.free|, Lookup(g.m, e, u).frame);
    }
    forall x | InRange(ds, x) && x.User? ensures SameUser(m, g.m, x) {
      assert InRange(ds + {e}, x) && SameUser(m, n, x) && SameUser(n, g.m, x);
    }
  }

  lemma FreeVmSize(m: Mem, ds: set<nat>, d: nat)
    requires Owned(m, ds) && d in ds
    ensures |FreeVm(m, ds, d).pages| == |m.pages|
  {
    FreeVmDefined(m, ds, d);
    ShrinkExact(m, ds, d, 0, USER_PAGES);
  }

  lemma CopyFails(m: Mem, n: Mem, g: Grown, ds: set<nat>, d: nat, e: nat, kmap: seq<Region>, w: nat)
    requires Owned(m, ds) && d in ds && w <= USER_PAGES && Started(m, n, ds, e, kmap)
    requires !g.ok && Copied(n, g, ds + {e}, d, e, 0, w)
    ensures var r := FreeVm(g.m, ds + {e}, e);
      && Owned(r, ds) && SameUsers(m, r, ds) && (NothingLost(m, r, ds, ds) <==> !g.leaked)
  {
    hide KernelPart, KernelFrames;
    var all, r := ds + {e}, FreeVm(g.m, ds + {e}, e);
    assert all - {e} == ds;
    FreeVmExact(g.m, all, e, Dir(e), e);
    FreeVmKeeps(g.m, all, e);
    FreeVmSize(g.m, all, e);
    forall x | InRange(ds, x) && x.User? ensures SameUser(m, r, x) {
      assert InRange(all, x) && SameUser(m, n, x) && SameUser(n, g.m, x);
      FreeVmExact(g.m, all, e, x, e);
    }
    if g.leaked {
      var f: nat :| Free(n, f) && !Accounted(g.m, all, f);
      assert Accounted(n, all, f) && Accounted(m, ds, f);
      if Accounted(r, ds, f) { FreeVmBack(g.m, all, e, f); }
    }
  }

  /** One free frame: setupkvm takes it for the directory, finds none for a page table
      and returns without giving it back. */
  lemma ForkLosesFrame(m: Mem, ds: set<nat>, d: nat, kmap: seq<Region>)
    requires Owned(m, ds) && d in ds && AllInKernel(kmap) && kmap != [] && |m.free| == 1
    ensures CopyUvm(m, ds, d, kmap, 0).NoMemory? && !NothingLost(m, CopyUvm(m, ds, d, kmap, 0).m, ds, ds)
  {
    CopyUvmExact(m, ds, d, kmap, 0);
    KernelNeedsTables(kmap);
  }

  lemma KernelNeedsTables(kmap: seq<Region>)
    requires AllInKernel(kmap) && kmap != []
    ensures KernelFrames(kmap) >= 2
  {
    assert InKernel(kmap[0]);
    var k := With(map[], kmap[0]);
    WithIs(map[], kmap[0], kmap[0].v);
    assert kmap[0].v in k;
    assert kmap[0].v / ENTRIES in TablesOf(k);
    TablesWithAll(k, kmap, 1);
  }
}
