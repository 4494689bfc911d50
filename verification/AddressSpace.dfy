/** vm.c and kalloc.c as they run: methods that change physical memory in place,
    proved to compute the functions of module PageTable. The ghost parameter `ds` names
    the directories of all address spaces in existence. */
module AddressSpace {
  import opened PageTable
  import opened KernelMap
  import opened CopyVm
  import opened Options

  datatype MapResult = Done | OutOfMemory | PanicRemap

  datatype ForkResult = Copy(dir: nat) | Failed | Panicked

  class Memory {
    var free: seq<nat>
    var pages: seq<Page>

    ghost function Abs(): Mem
      reads this
    {
      Mem(free, pages)
    }

    method Kalloc() returns (f: Option<nat>)
      modifies `free
      ensures f.None? <==> old(free) == []
      ensures f.None? ==> free == []
      ensures f.Some? ==> f.value == Top(old(Abs())) && Abs() == Pop(old(Abs()))
      ensures f.Some? ==> old(free) == free + [f.value]
    {
      if free == [] {
        return None;
      }
      f := Some(free[|free| - 1]);
      free := free[..|free| - 1];
    }

    method Kfree(f: nat)
      requires f < |pages|
      modifies this
      ensures Abs() == Push(old(Abs()), f)
      ensures free == old(free) + [f] && pages == old(pages)[f := Filled(1)]
    {
      pages := pages[f := Filled(1)];
      free := free + [f];
    }

    /** walkpgdir, returning the frame of the page table. */
    method Walk(d: nat, v: nat, alloc: bool, ghost ds: set<nat>) returns (t: Option<nat>)
      requires Owned(Abs(), ds) && d in ds && v < ALL_PAGES
      modifies this
      ensures t.Some? <==> CanWalk(old(Abs()), d, v, alloc)
      ensures t.None? ==> Abs() == old(Abs())
      ensures t.Some? ==> Abs() == Walked(old(Abs()), ds, d, v) && t.value == EntryAt(Abs(), d, v / ENTRIES).frame
      ensures EntryAt(old(Abs()), d, v / ENTRIES).Present? ==> Abs() == old(Abs())
    {
      assert InRange(ds, Dir(d)) && SlotOk(Abs(), Dir(d));
      var pde := pages[d].entries[v / ENTRIES];
      if pde.Present? {
        return Some(pde.frame);
      }
      if !alloc {
        return None;
      }
      if free != [] { TakeOk(Abs(), ds, EmptyTable()); }
      t := Kalloc();
      if t.None? {
        return;
      }
      pages := pages[t.value := EmptyTable()];
      assert SlotOk(Abs(), Dir(d));
      pages := pages[d := Table(pages[d].entries[v / ENTRIES := Present(t.value, Flags(true, true))])];
    }

    /** One iteration of mappages, which is all of it for one page. */
    method MapPage(d: nat, v: nat, f: nat, fl: Flags, ghost ds: set<nat>) returns (r: MapResult)
      requires Owned(Abs(), ds) && d in ds && v < ALL_PAGES
      modifies this
      ensures r.OutOfMemory? <==> !CanWalk(old(Abs()), d, v, true)
      ensures r.PanicRemap? <==> Lookup(old(Abs()), d, v).Present?
      ensures !r.Done? ==> Abs() == old(Abs())
      ensures r.Done? ==> Abs() == SetPte(Walked(old(Abs()), ds, d, v), d, v, Present(f, fl))
    {
      var t := Walk(d, v, true, ds);
      if t.None? {
        return OutOfMemory;
      }
      if pages[t.value].entries[v % ENTRIES].Present? {
        return PanicRemap;
      }
      pages := pages[t.value := Table(pages[t.value].entries[v % ENTRIES := Present(f, fl)])];
      return Done;
    }

    /** mappages on a region of the kernel's half, where nothing is mapped yet. */
    method Mappages(d: nat, g: Region, ghost ds: set<nat>, ghost k: map<nat, Entry>) returns (ok: bool)
      requires Owned(Abs(), ds) && d in ds && InKernel(g) && KernelPart(Abs(), d, k)
      requires forall u :: g.v <= u < g.v + g.n ==> u !in k
      modifies this
      ensures MapRegion(old(Abs()), ds, d, g) == Reached(ok, Abs())
      ensures ok ==> KernelPart(Abs(), d, With(k, g))
    {
      var rest := g;
      ghost var h: map<nat, Entry> := k;
      while rest.n > 0
        invariant rest.v + rest.n == g.v + g.n && g.v <= rest.v
        invariant Owned(Abs(), ds) && KernelPart(Abs(), d, h) && With(h, rest) == With(k, g)
        invariant forall u :: rest.v <= u < rest.v + rest.n ==> u !in h
        invariant MapRegion(Abs(), ds, d, rest) == MapRegion(old(Abs()), ds, d, g)
        decreases rest.n
      {
        ghost var m, e := Abs(), Present(rest.f, rest.fl);
        MapKernelOk(m, ds, d, rest.v, e, h);
        WalkKernel(m, ds, d, rest.v, e, h);
        var r := MapPage(d, rest.v, rest.f, rest.fl, ds);
        if !r.Done? {
          return false;
        }
        h := h[rest.v := e];
        rest := Rest(rest);
      }
      return true;
    }

    /** setupkvm for a table kmap without overlaps. */
    method Setupkvm(kmap: seq<Region>, ghost ds: set<nat>) returns (e: Option<nat>)
      requires Owned(Abs(), ds) && AllInKernel(kmap) && NoOverlap(kmap)
      modifies this
      ensures SetupKvm(old(Abs()), ds, kmap) == NewDir(e, Abs())
      ensures forall data: nat :: 0x80100 < data < 0x8E000 && kmap == CodeMap(data) ==> CodeDir(old(Abs()), NewDir(e, Abs()), data)
    {
      ghost var m := Abs();
      forall data: nat | 0x80100 < data < 0x8E000 && kmap == CodeMap(data) ensures CodeDir(m, SetupKvm(m, ds, kmap), data) {
        CodeSetup(m, ds, data);
      }
      e := Kalloc();
      if e.None? {
        return;
      }
      NewSpace(m, ds);
      pages := pages[e.value := EmptyTable()];
      ghost var all, n, k := ds + {e.value}, Abs(), map[];
      EmptyKernel(n, e.value);
      var i := 0;
      while i < |kmap|
        invariant 0 <= i <= |kmap|
        invariant Owned(Abs(), all) && KernelPart(Abs(), e.value, k) && InFirst(kmap, i, k)
        invariant MapAll(Abs(), all, e.value, kmap, i) == MapAll(n, all, e.value, kmap, 0)
      {
        assert InKernel(kmap[i]);
        NextFree(kmap, i, k);
        var ok := Mappages(e.value, kmap[i], all, k);
        if !ok {
          return None;
        }
        FirstMore(kmap, i, k);
        k := With(k, kmap[i]);
        i := i + 1;
      }
    }

    /** One round of allocuvm and copyuvm: kalloc, fill, mappages; None if there is no
        frame. */
    method NewPage(d: nat, v: nat, p: Page, fl: Flags, ghost ds: set<nat>) returns (r: Option<MapResult>)
      requires Owned(Abs(), ds) && d in ds && v < USER_PAGES && p.Data?
      modifies this
      ensures r.None? <==> old(free) == []
      ensures r.None? ==> Abs() == old(Abs())
      ensures Lookup(old(Abs()), d, v).Present? ==> r.None? || r == Some(PanicRemap)
      ensures Lookup(old(Abs()), d, v) == Absent ==>
        var s := MapNew(old(Abs()), ds, d, v, p, fl);
        && (s.NoFrame? <==> r.None?) && (s.NoTable? <==> r == Some(OutOfMemory)) && (s.Mapped? <==> r == Some(Done))
        && Abs() == if s.NoFrame? then old(Abs()) else s.m
    {
      ghost var m := Abs();
      var f := Kalloc();
      if f.None? {
        return None;
      }
      TakeOk(m, ds, p);
      pages := pages[f.value := p];
      ghost var m1 := Abs();
      assert InRange(ds, User(d, v)) && SameElsewhere(m, m1, ds, d, v, v) && SameUser(m, m1, User(d, v));
      var mapped := MapPage(d, v, f.value, fl, ds);
      return Some(mapped);
    }

    /** One round of deallocuvm's loop at page a; the result is the next page. */
    method Drop(d: nat, a: nat, ghost ds: set<nat>, ghost w: nat) returns (next: nat)
      requires Owned(Abs(), ds) && d in ds && a < w <= USER_PAGES
      modifies this
      ensures Owned(Abs(), ds) && a < next && Shrink(Abs(), ds, d, next, w) == Shrink(old(Abs()), ds, d, a, w)
    {
      ghost var m := Abs();
      var t := Walk(d, a, false, ds);
      next := a + 1;
      if t.None? {
        next := a + ENTRIES;
      } else {
        TableOfPage(m, ds, d, a);
        var pte := pages[t.value].entries[a % ENTRIES];
        if pte.Present? {
          MappedUser(m, ds, d, a);
          UnmapOk(m, ds, d, a);
          KfreeThenClear(m, ds, d, a);
          Kfree(pte.frame);
          pages := pages[t.value := Table(pages[t.value].entries[a % ENTRIES := Absent])];
          assert Abs() == Unmap(m, d, a);
        }
      }
    }

    method Deallocuvm(d: nat, oldsz: nat, newsz: nat, ghost ds: set<nat>) returns (size: nat)
      requires Owned(Abs(), ds) && d in ds && oldsz <= KERNBASE
      modifies this
      ensures Owned(Abs(), ds) && size == if newsz < oldsz then newsz else oldsz
      ensures Abs() == if newsz < oldsz then Shrink(old(Abs()), ds, d, Up(newsz), Up(oldsz)) else old(Abs())
    {
      if newsz >= oldsz {
        return oldsz;
      }
      ghost var all := Shrink(Abs(), ds, d, Up(newsz), Up(oldsz));
      var a := Up(newsz);
      while a * PGSIZE < oldsz
        invariant Owned(Abs(), ds) && Shrink(Abs(), ds, d, a, Up(oldsz)) == all
        decreases oldsz - a * PGSIZE
      {
        a := Drop(d, a, ds, Up(oldsz));
      }
      return newsz;
    }

    /** One round of allocuvm's loop, which ignores the result of mappages; the first
        mapped page is w. */
    method AddPage(d: nat, a: nat, ghost ds: set<nat>, ghost w: nat) returns (r: Option<MapResult>)
      requires Owned(Abs(), ds) && d in ds && a <= w <= USER_PAGES && a < USER_PAGES && Clear(Abs(), d, a, w)
      requires w < USER_PAGES && a == w ==> Lookup(Abs(), d, w).Present?
      modifies this
      ensures r.None? <==> old(free) == []
      ensures r.None? ==> Abs() == old(Abs())
      ensures r.None? && a < w ==> !Grow(Abs(), ds, d, a, w).ok && Grow(Abs(), ds, d, a, w).m == Abs()
      ensures r == Some(PanicRemap) <==> r.Some? && a == w
      ensures r.Some? && a < w ==> Owned(Abs(), ds) && Clear(Abs(), d, a + 1, w)
      ensures r.Some? && a < w ==> SameEnd(Grow(Abs(), ds, d, a + 1, w), Grow(old(Abs()), ds, d, a, w))
      ensures r.Some? && a < w < USER_PAGES ==> Lookup(Abs(), d, w).Present? == Lookup(old(Abs()), d, w).Present?
    {
      ghost var m := Abs();
      if a < w { MapNewOk(m, ds, d, a, Filled(0), Flags(true, true)); }
      r := NewPage(d, a, Filled(0), Flags(true, true), ds);
      if r.Some? && a < w {
        if r.value.Done? { ClearKept(m, Abs(), ds, d, a, a + 1, w); } else { ClearKept(m, Abs(), ds, d, a, a, w); }
        assert InRange(ds, User(d, w)) <==> w < USER_PAGES;
        if w < USER_PAGES { assert SameUser(m, Abs(), User(d, w)); }
      }
    }

    /** None stands for mappages' panic on a page that is mapped already. */
    method Allocuvm(d: nat, oldsz: nat, newsz: nat, ghost ds: set<nat>) returns (size: Option<nat>)
      requires Owned(Abs(), ds) && d in ds
      modifies this
      ensures Alloc(old(Abs()), ds, d, oldsz, newsz) == if size.Some? then Sized(size.value, Abs()) else Remap
    {
      hide Shrink, Owned, Frame, Lookup, Accounted, NextMapped, Exact, Need, GrownOk;
      if newsz >= KERNBASE {
        return Some(0);
      }
      if newsz < oldsz {
        return Some(oldsz);
      }
      UpMore(oldsz, newsz);
      ghost var v, w := Up(oldsz), Up(newsz);
      ghost var u := NextMapped(Abs(), d, v, w);
      GrowExact(Abs(), ds, d, v, u);
      ghost var all := Grow(Abs(), ds, d, v, u);
      var a := Up(oldsz);
      while a * PGSIZE < newsz
        invariant v <= a <= u && Owned(Abs(), ds) && Clear(Abs(), d, a, u)
        invariant u < w ==> Lookup(Abs(), d, u).Present?
        invariant SameEnd(Grow(Abs(), ds, d, a, u), all)
        decreases w - a
      {
        var got := AddPage(d, a, ds, u);
        if got.None? {
          var _ := Deallocuvm(d, newsz, oldsz, ds);
          return Some(0);
        }
        if got == Some(PanicRemap) {
          return None;
        }
        a := a + 1;
      }
      return Some(newsz);
    }

    /** freevm's second loop; o is memory before it, es are the other spaces. */
    method DropTables(d: nat, ghost o: Mem, ghost es: set<nat>)
      requires Dropping(o, Abs(), es, d, 0) && Abs() == o
      modifies this
      ensures Abs() == FreeTables(o, d, 0)
    {
      hide Push, Owned, Lookup, SlotOk, Filled;
      var i := 0;
      while i < ENTRIES
        invariant 0 <= i <= ENTRIES && Dropping(o, Abs(), es, d, i) && FreeTables(Abs(), d, i) == FreeTables(o, d, 0)
      {
        assert EntryAt(Abs(), d, i) == EntryAt(o, d, i);
        var pde := pages[d].entries[i];
        if pde.Present? {
          DroppingStep(o, Abs(), es, d, i);
          Kfree(pde.frame);
        }
        i := i + 1;
      }
    }

    method Freevm(d: nat, ghost ds: set<nat>)
      requires Owned(Abs(), ds) && d in ds
      modifies this
      ensures Abs() == FreeVm(old(Abs()), ds, d)
    {
      hide FreeTables, EntryAt, TableAt, Push, Apart, Filled, SlotOk, Frame, Lookup, Dropping, Owned;
      FreeVmDefined(Abs(), ds, d);
      var _ := Deallocuvm(d, KERNBASE, 0, ds);
      DroppingStart(Abs(), ds, d);
      DropTables(d, Abs(), ds - {d});
      Kfree(d);
    }

    /** The parent's entry of page a; None stands for copyuvm's two panics. */
    method SourcePage(d: nat, a: nat, ghost ds: set<nat>) returns (pte: Option<Entry>)
      requires Owned(Abs(), ds) && d in ds && a < USER_PAGES
      modifies this
      ensures Abs() == old(Abs())
      ensures pte == if Lookup(Abs(), d, a).Present? then Some(Lookup(Abs(), d, a)) else None
    {
      var t := Walk(d, a, false, ds);
      if t.None? {
        return None;
      }
      TableOfPage(Abs(), ds, d, a);
      var e := pages[t.value].entries[a % ENTRIES];
      return if e.Present? then Some(e) else None;
    }

    /** The rest of a round of copyuvm's loop at page a, from d to e. */
    method CopyPage(d: nat, e: nat, a: nat, pte: Entry, ghost ds: set<nat>, ghost w: nat) returns (ok: bool)
      requires CanCopy(Abs(), ds, d, e, a, w) && a < w && pte == Lookup(Abs(), d, a)
      modifies this
      ensures !ok ==> !CopyVm.Copy(old(Abs()), ds, d, e, a, w).ok && CopyVm.Copy(old(Abs()), ds, d, e, a, w).m == Abs()
      ensures ok ==> CanCopy(Abs(), ds, d, e, a + 1, w) && SameElsewhere(old(Abs()), Abs(), ds, e, a, a + 1)
      ensures ok ==> SameEnd(CopyVm.Copy(Abs(), ds, d, e, a + 1, w), CopyVm.Copy(old(Abs()), ds, d, e, a, w))
    {
      ghost var m := Abs();
      SourceOk(m, ds, d, a);
      MapNewOk(m, ds, e, a, pages[pte.frame], pte.flags);
      var r := NewPage(e, a, pages[pte.frame], pte.flags, ds);
      if r == Some(Done) { CanCopyOn(m, Abs(), ds, d, e, a, w); }
      return r == Some(Done);
    }

    method Copyuvm(d: nat, sz: nat, kmap: seq<Region>, ghost ds: set<nat>) returns (r: ForkResult)
      requires Owned(Abs(), ds) && d in ds && sz < KERNBASE && AllInKernel(kmap) && NoOverlap(kmap)
      modifies this
      ensures var c := CopyUvm(old(Abs()), ds, d, kmap, sz);
        && (c.Child? <==> r.Copy?) && (c.PanicUnmapped? <==> r.Panicked?)
        && (r.Copy? ==> c == Child(r.dir, Abs())) && (r.Failed? ==> c == NoMemory(Abs()))
    {
      hide Owned, Started, KernelPart, Lookup, Frame, Accounted, Contiguous, SameUser;
      ghost var m, w, gap := Abs(), Up(sz), Gap(Abs(), d, 0, Up(sz));
      var e := Setupkvm(kmap, ds);
      if e.None? {
        return Failed;
      }
      CopyStart(m, Abs(), ds, d, e.value, kmap, w);
      SourceStart(m, Abs(), ds, d, w);
      ghost var all, n := ds + {e.value}, Abs();
      CopyExact(n, all, d, e.value, 0, gap);
      ghost var g := CopyVm.Copy(n, all, d, e.value, 0, gap);
      var a := 0;
      while a * PGSIZE < sz
        invariant 0 <= a <= gap && CanCopy(Abs(), all, d, e.value, a, gap)
        invariant SameEnd(CopyVm.Copy(Abs(), all, d, e.value, a, gap), g) && SameSource(m, Abs(), d, w)
        decreases w - a
      {
        var got := SourcePage(d, a, all);
        if got.None? {
          return Panicked;
        }
        ghost var v := Abs();
        var ok := CopyPage(d, e.value, a, got.value, all, gap);
        if !ok {
          Freevm(e.value, all);
          return Failed;
        }
        SourceKept(m, v, Abs(), all, d, e.value, a, w);
        a := a + 1;
      }
      return ForkResult.Copy(e.value);
    }
  }

  predicate SameEnd(g: Grown, h: Grown) { g.ok == h.ok && g.m == h.m }

  /** Space d has the same pages of 0 .. w mapped. */
  ghost predicate SameSource(m: Mem, n: Mem, d: nat, w: nat) {
    forall u :: 0 <= u < w ==> (Lookup(n, d, u).Present? <==> Lookup(m, d, u).Present?)
  }

  lemma SourceStart(m: Mem, n: Mem, ds: set<nat>, d: nat, w: nat)
    requires SameUsers(m, n, ds) && d in ds && w <= USER_PAGES
    ensures SameSource(m, n, d, w)
  {
    forall u | 0 <= u < w ensures Lookup(n, d, u).Present? <==> Lookup(m, d, u).Present? {
      assert InRange(ds, User(d, u)) && SameUser(m, n, User(d, u));
    }
  }

  lemma SourceKept(m: Mem, v: Mem, n: Mem, ds: set<nat>, d: nat, e: nat, a: nat, w: nat)
    requires SameSource(m, v, d, w) && SameElsewhere(v, n, ds, e, a, a + 1) && d in ds && d != e && w <= USER_PAGES
    ensures SameSource(m, n, d, w)
  {
    forall u | 0 <= u < w ensures Lookup(n, d, u).Present? <==> Lookup(m, d, u).Present? {
      assert InRange(ds, User(d, u)) && SameUser(v, n, User(d, u));
    }
  }

  // --------------------------------------------------------------------- kmap

  /** The pages in `k` are those of the first i entries. */
  ghost predicate InFirst(kmap: seq<Region>, i: nat, k: map<nat, Entry>)
    requires i <= |kmap|
  {
    forall u :: u in k ==> exists j :: 0 <= j < i && Contains(kmap[j], u)
  }

  lemma NextFree(kmap: seq<Region>, i: nat, k: map<nat, Entry>)
    requires i < |kmap| && NoOverlap(kmap) && InFirst(kmap, i, k)
    ensures forall u :: kmap[i].v <= u < kmap[i].v + kmap[i].n ==> u !in k
  {
    forall u | kmap[i].v <= u < kmap[i].v + kmap[i].n ensures u !in k {
      assert Contains(kmap[i], u);
    }
  }

  lemma FirstMore(kmap: seq<Region>, i: nat, k: map<nat, Entry>)
    requires i < |kmap| && InFirst(kmap, i, k)
    ensures InFirst(kmap, i + 1, With(k, kmap[i]))
  {
    forall u | u in With(k, kmap[i]) ensures exists j :: 0 <= j < i + 1 && Contains(kmap[j], u) {
      WithIs(k, kmap[i], u);
      if u in k { var j :| 0 <= j < i && Contains(kmap[j], u); } else { assert Contains(kmap[i], u); }
    }
  }

  /** In the kernel's half walkpgdir and the store are `MapKernel`. */
  lemma WalkKernel(m: Mem, ds: set<nat>, d: nat, v: nat, e: Entry, k: map<nat, Entry>)
    requires Owned(m, ds) && d in ds && IsKernel(v) && KernelPart(m, d, k) && v !in k
    ensures Lookup(m, d, v) == Absent && (CanWalk(m, d, v, true) <==> MapKernel(m, ds, d, v, e).Some?)
    ensures CanWalk(m, d, v, true) ==> MapKernel(m, ds, d, v, e) == Some(SetPte(Walked(m, ds, d, v), d, v, e))
  {
  }

  // ----------------------------------------------------------------- the walk

  predicate CanWalk(m: Mem, d: nat, v: nat, alloc: bool) {
    EntryAt(m, d, v / ENTRIES).Present? || (alloc && m.free != [])
  }

  /** Memory after walkpgdir has found or added the page table of v. */
  ghost function Walked(m: Mem, ds: set<nat>, d: nat, v: nat): (r: Mem)
    requires Owned(m, ds) && d in ds && v < ALL_PAGES && CanWalk(m, d, v, true)
    ensures EntryAt(r, d, v / ENTRIES).Present? && TableAt(r, EntryAt(r, d, v / ENTRIES).frame) && Lookup(r, d, v) == Lookup(m, d, v)
  {
    if EntryAt(m, d, v / ENTRIES).Present? then
      assert InRange(ds, Tab(d, v / ENTRIES)) && SlotOk(m, Tab(d, v / ENTRIES));
      m
    else
      TakeOk(m, ds, EmptyTable());
      assert InRange(ds, Dir(d)) && SlotOk(Take(m, EmptyTable()), Dir(d));
      WalkedTable(m, ds, d, v);
      AddTable(Take(m, EmptyTable()), d, v / ENTRIES, Top(m))
  }

  /** kfree writes to the page's frame, not to its page table. */
  lemma KfreeThenClear(m: Mem, ds: set<nat>, d: nat, v: nat)
    requires Mapped1(m, ds, d, v) && TableAt(m, EntryAt(m, d, v / ENTRIES).frame) && Lookup(m, d, v).frame < |m.pages|
    ensures var t, f := EntryAt(m, d, v / ENTRIES).frame, Lookup(m, d, v).frame;
      && t != f && Push(m, f).pages[t] == m.pages[t]
      && Unmap(m, d, v) == Mem(m.free + [f], Push(m, f).pages[t := Table(m.pages[t].entries[v % ENTRIES := Absent])])
  {
    assert InRange(ds, User(d, v)) && InRange(ds, Tab(d, v / ENTRIES)) && Apart(m, User(d, v), Tab(d, v / ENTRIES));
  }

  /** The table walkpgdir has just added is empty. */
  lemma WalkedTable(m: Mem, ds: set<nat>, d: nat, v: nat)
    requires Owned(m, ds) && d in ds && v < ALL_PAGES && EntryAt(m, d, v / ENTRIES) == Absent && m.free != []
    requires Top(m) < |m.pages| && TableAt(Take(m, EmptyTable()), d)
    ensures var n := AddTable(Take(m, EmptyTable()), d, v / ENTRIES, Top(m));
      && EntryAt(n, d, v / ENTRIES) == Present(Top(m), Flags(true, true)) && TableAt(n, Top(m))
      && EntryAt(n, Top(m), v % ENTRIES) == Absent
  {
    TakeOk(m, ds, EmptyTable());
    var q, e := Take(m, EmptyTable()), Present(Top(m), Flags(true, true));
    assert InRange(ds, Dir(d)) && Frame(q, Dir(d)) != Some(Top(m));
    SetEntryAt(q, d, v / ENTRIES, e, d, v / ENTRIES);
    SetEntryAt(q, d, v / ENTRIES, e, Top(m), v % ENTRIES);
  }
}
