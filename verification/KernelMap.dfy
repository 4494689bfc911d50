/** setupkvm of vm.c: a new page directory with the kernel's mappings, which are the
    same in every address space. It needs a frame for the directory and one for every
    page table of the kernel's half; if it runs out it gives none of them back. */
module KernelMap {
  import opened Options
  import opened PageTable

  const ALL_PAGES: nat := 1048576

  predicate IsKernel(v: nat) { USER_PAGES <= v < ALL_PAGES }

  /** An entry of kmap: `n` pages from virtual page `v` on, mapped to the frames from
      `f` on. */
  datatype Region = Region(v: nat, n: nat, f: nat, fl: Flags)

  /** The page tables that a set of mappings needs. */
  ghost function TablesOf(k: map<nat, Entry>): (r: set<nat>) {
    set v | v in k :: v / ENTRIES
  }

  /** Space d has exactly the mappings `k` in the kernel's half, and no other tables. */
  ghost predicate KernelPart(m: Mem, d: nat, k: map<nat, Entry>) {
    && (forall i: nat :: i < ENTRIES ==> (EntryAt(m, d, i).Present? <==> i in TablesOf(k)))
    && (forall v: nat :: IsKernel(v) ==> Lookup(m, d, v) == if v in k then k[v] else Absent)
  }

  // ----------------------------------------------------------------- one page

  ghost predicate HasKernelTable(m: Mem, ds: set<nat>, d: nat, v: nat) {
    Owned(m, ds) && d in ds && IsKernel(v) && EntryAt(m, d, v / ENTRIES).Present?
  }

  lemma KernelTable(m: Mem, ds: set<nat>, d: nat, v: nat)
    requires HasKernelTable(m, ds, d, v)
    ensures TableAt(m, EntryAt(m, d, v / ENTRIES).frame)
  {
    assert InRange(ds, Tab(d, v / ENTRIES)) && SlotOk(m, Tab(d, v / ENTRIES));
  }

  /** A kernel mapping is not a slot: storing one changes no slot of any space. */
  lemma KernelPteFrame(m: Mem, ds: set<nat>, d: nat, v: nat, e: Entry, x: Slot)
    requires HasKernelTable(m, ds, d, v) && TableAt(m, EntryAt(m, d, v / ENTRIES).frame) && InRange(ds, x)
    ensures Frame(SetPte(m, d, v, e), x) == Frame(m, x) && (x.User? ==> SameUser(m, SetPte(m, d, v, e), x))
  {
    var y := Tab(d, v / ENTRIES);
    var t := EntryAt(m, d, v / ENTRIES).frame;
    assert InRange(ds, y) && Frame(m, y) == Some(t);
    assert InRange(ds, Dir(x.d)) && Apart(m, y, Dir(x.d));
    if x.Tab? { SetEntryAt(m, t, v % ENTRIES, e, x.d, x.i); }
    if x.User? {
      var z := Tab(x.d, x.v / ENTRIES);
      SetEntryAt(m, t, v % ENTRIES, e, x.d, x.v / ENTRIES);
      assert InRange(ds, z) && Apart(m, y, z) && y != z;
      if Frame(m, z).Some? { SetEntryAt(m, t, v % ENTRIES, e, Frame(m, z).value, x.v % ENTRIES); }
      assert SlotOk(m, x) && Apart(m, x, y);
    }
  }

  /** The spaces ds have the same frames and user pages as before. */
  ghost predicate SameSpaces(m: Mem, r: Mem, ds: set<nat>) {
    && |r.pages| == |m.pages|
    && forall x :: InRange(ds, x) ==> Frame(r, x) == Frame(m, x) && (x.User? ==> SameUser(m, r, x))
  }

  lemma KernelPteOwned(m: Mem, ds: set<nat>, d: nat, v: nat, e: Entry)
    requires HasKernelTable(m, ds, d, v) && TableAt(m, EntryAt(m, d, v / ENTRIES).frame)
    ensures Owned(SetPte(m, d, v, e), ds) && SameSpaces(m, SetPte(m, d, v, e), ds)
  {
    var r := SetPte(m, d, v, e);
    var y := Tab(d, v / ENTRIES);
    assert InRange(ds, y);
    forall x | InRange(ds, x) ensures SlotOk(r, x) && Frame(r, x) == Frame(m, x) && (x.User? ==> SameUser(m, r, x)) {
      KernelPteFrame(m, ds, d, v, e, x);
      assert SlotOk(m, x) && Apart(m, x, y);
    }
    forall x, z | InRange(ds, x) && InRange(ds, z) ensures Apart(r, x, z) { assert Apart(m, x, z); }
  }

  /** walkpgdir and the store of one kernel mapping; None if there is no frame for a
      page table. */
  ghost function MapKernel(m: Mem, ds: set<nat>, d: nat, v: nat, e: Entry): (r: Option<Mem>)
    requires Owned(m, ds) && d in ds && IsKernel(v)
    ensures r.Some? ==> Owned(r.value, ds) && |r.value.pages| == |m.pages|
  {
    if EntryAt(m, d, v / ENTRIES).Present? then
      KernelTable(m, ds, d, v);
      KernelPteOwned(m, ds, d, v, e);
      Some(SetPte(m, d, v, e))
    else if m.free == [] then None
    else
      KernelTableAdded(m, ds, d, v);
      var n := AddTable(Take(m, EmptyTable()), d, v / ENTRIES, Top(m));
      KernelTable(n, ds, d, v);
      KernelPteOwned(n, ds, d, v, e);
      Some(SetPte(n, d, v, e))
  }

  lemma KernelTableAdded(m: Mem, ds: set<nat>, d: nat, v: nat)
    requires Owned(m, ds) && d in ds && IsKernel(v) && EntryAt(m, d, v / ENTRIES) == Absent && m.free != []
    ensures Top(m) < |m.pages|
    ensures var q := Take(m, EmptyTable());
      && CanAddTable(q, ds, d, v / ENTRIES, Top(m)) && |q.pages| == |m.pages| && q.free == m.free[..|m.free| - 1]
      && (forall x :: InRange(ds, x) ==> Frame(q, x) == Frame(m, x))
      && SameElsewhere(m, q, ds, 0, 0, 0)
    ensures HasKernelTable(AddTable(Take(m, EmptyTable()), d, v / ENTRIES, Top(m)), ds, d, v)
  {
    TakeOk(m, ds, EmptyTable());
    var q := Take(m, EmptyTable());
    assert SameElsewhere(m, q, ds, 0, 0, 0);
    assert InRange(ds, Dir(d)) && SlotOk(q, Dir(d));
    assert InRange(ds, Tab(d, v / ENTRIES)) && Frame(q, Tab(d, v / ENTRIES)) == Frame(m, Tab(d, v / ENTRIES));
    AddTableOwned(q, ds, d, v / ENTRIES, Top(m));
    SetEntryAt(q, d, v / ENTRIES, Present(Top(m), Flags(true, true)), d, v / ENTRIES);
  }

  /** The user memory of all spaces is as before. */
  ghost predicate SameUsers(m: Mem, r: Mem, ds: set<nat>) {
    |r.pages| == |m.pages| && forall x :: InRange(ds, x) && x.User? ==> SameUser(m, r, x)
  }

  lemma SameUsersTwice(m: Mem, n: Mem, r: Mem, ds: set<nat>)
    requires SameUsers(m, n, ds) && SameUsers(n, r, ds)
    ensures SameUsers(m, r, ds)
  {
    forall x | InRange(ds, x) && x.User? ensures SameUser(m, r, x) { assert SameUser(m, n, x) && SameUser(n, r, x); }
  }

  /** No frame is lost and none appears. */
  ghost predicate SameFrames(m: Mem, r: Mem, ds: set<nat>) {
    forall f: nat :: Accounted(r, ds, f) <==> Accounted(m, ds, f)
  }

  lemma PteFrames(m: Mem, r: Mem, ds: set<nat>)
    requires SameSpaces(m, r, ds) && r.free == m.free
    ensures SameFrames(m, r, ds)
  {
    forall f: nat ensures Accounted(r, ds, f) <==> Accounted(m, ds, f) {
      assert Free(r, f) <==> Free(m, f);
      if Used(m, ds, f) { var x :| InRange(ds, x) && Frame(m, x) == Some(f); assert Frame(r, x) == Some(f); }
      if Used(r, ds, f) { var x :| InRange(ds, x) && Frame(r, x) == Some(f); assert Frame(m, x) == Some(f); }
    }
  }

  /** The frame of a new table leaves the free list and is the space's. */
  lemma TableFrames(m: Mem, ds: set<nat>, d: nat, v: nat)
    requires Owned(m, ds) && d in ds && IsKernel(v) && EntryAt(m, d, v / ENTRIES) == Absent && m.free != []
    requires Top(m) < |m.pages| && TableAt(Take(m, EmptyTable()), d)
    ensures SameFrames(m, AddTable(Take(m, EmptyTable()), d, v / ENTRIES, Top(m)), ds)
  {
    KernelTableAdded(m, ds, d, v);
    var q, t, i := Take(m, EmptyTable()), Top(m), v / ENTRIES;
    var r := AddTable(q, d, i, t);
    assert m.free[|m.free| - 1] == t && Free(m, t);
    forall f: nat ensures Accounted(r, ds, f) <==> Accounted(m, ds, f) {
      if Accounted(m, ds, f) {
        if f != t { TakeAccounted(m, ds, EmptyTable(), f); }
        AddTableAccounted(q, ds, d, i, t, f);
      }
      if Free(r, f) {
        var k :| 0 <= k < |r.free| && r.free[k] == f;
        assert m.free[k] == f;
      } else if Used(r, ds, f) {
        var x :| InRange(ds, x) && Frame(r, x) == Some(f);
        AddTableFrame(q, ds, d, i, t, x);
        if x != Tab(d, i) { assert Frame(m, x) == Some(f); }
      }
    }
  }

  lemma TableUsers(m: Mem, ds: set<nat>, d: nat, v: nat)
    requires Owned(m, ds) && d in ds && IsKernel(v) && EntryAt(m, d, v / ENTRIES) == Absent && m.free != []
    requires Top(m) < |m.pages| && TableAt(Take(m, EmptyTable()), d)
    ensures SameUsers(m, AddTable(Take(m, EmptyTable()), d, v / ENTRIES, Top(m)), ds)
    ensures SameOthers(m, AddTable(Take(m, EmptyTable()), d, v / ENTRIES, Top(m)), ds, d)
  {
    KernelTableAdded(m, ds, d, v);
    var q := Take(m, EmptyTable());
    var r := AddTable(q, d, v / ENTRIES, Top(m));
    forall x | InRange(ds, x) && x.User? ensures SameUser(m, r, x) {
      assert SameUser(m, q, x);
      AddTableFrame(q, ds, d, v / ENTRIES, Top(m), x);
    }
    forall x | InRange(ds, x) && x.d != d ensures Frame(r, x) == Frame(m, x) {
      AddTableFrame(q, ds, d, v / ENTRIES, Top(m), x);
    }
  }

  /** The frames a kernel mapping costs. */
  ghost function KernelCost(k: map<nat, Entry>, v: nat): (n: nat) {
    if v / ENTRIES in TablesOf(k) then 0 else 1
  }

  /** The other spaces keep all their frames. */
  ghost predicate SameOthers(m: Mem, r: Mem, ds: set<nat>, d: nat) {
    forall x :: InRange(ds, x) && x.d != d ==> Frame(r, x) == Frame(m, x)
  }

  ghost predicate KernelStep(m: Mem, r: Mem, ds: set<nat>, d: nat, v: nat, e: Entry, k: map<nat, Entry>) {
    && Owned(r, ds) && KernelPart(r, d, k[v := e])
    && SameUsers(m, r, ds) && SameFrames(m, r, ds) && SameOthers(m, r, ds, d)
    && KernelCost(k, v) <= |m.free| && r.free == m.free[..|m.free| - KernelCost(k, v)]
  }

  lemma TablesMore(k: map<nat, Entry>, v: nat, e: Entry)
    ensures TablesOf(k[v := e]) == TablesOf(k) + {v / ENTRIES}
    ensures |TablesOf(k[v := e])| == |TablesOf(k)| + KernelCost(k, v)
  {
    var j := k[v := e];
    forall i ensures i in TablesOf(j) <==> i in TablesOf(k) || i == v / ENTRIES {
      if i in TablesOf(j) { var u :| u in j && u / ENTRIES == i; if u != v { assert u in k; } }
      if i in TablesOf(k) { var u :| u in k && u / ENTRIES == i; assert u in j; }
      assert v in j;
    }
    assert TablesOf(j) == TablesOf(k) + {v / ENTRIES};
  }

  /** Storing an entry whose table is there. */
  lemma KernelPartStore(m: Mem, ds: set<nat>, d: nat, v: nat, e: Entry, k: map<nat, Entry>, ts: set<nat>)
    requires HasKernelTable(m, ds, d, v) && TableAt(m, EntryAt(m, d, v / ENTRIES).frame)
    requires forall i: nat :: i < ENTRIES ==> (EntryAt(m, d, i).Present? <==> i in ts)
    requires forall u: nat :: IsKernel(u) ==> Lookup(m, d, u) == if u in k then k[u] else Absent
    ensures var r := SetPte(m, d, v, e);
      && (forall i: nat :: i < ENTRIES ==> (EntryAt(r, d, i).Present? <==> i in ts))
      && (forall u: nat :: IsKernel(u) ==> Lookup(r, d, u) == if u == v then e else if u in k then k[u] else Absent)
  {
    var r, t := SetPte(m, d, v, e), EntryAt(m, d, v / ENTRIES).frame;
    assert InRange(ds, Tab(d, v / ENTRIES)) && InRange(ds, Dir(d)) && Apart(m, Tab(d, v / ENTRIES), Dir(d));
    forall i: nat | i < ENTRIES ensures EntryAt(r, d, i) == EntryAt(m, d, i) { SetEntryAt(m, t, v % ENTRIES, e, d, i); }
    forall u: nat | IsKernel(u) ensures Lookup(r, d, u) == if u == v then e else Lookup(m, d, u) {
      KernelPteLookup(m, ds, d, v, e, u);
    }
  }

  lemma KernelPteLookup(m: Mem, ds: set<nat>, d: nat, v: nat, e: Entry, u: nat)
    requires HasKernelTable(m, ds, d, v) && TableAt(m, EntryAt(m, d, v / ENTRIES).frame) && IsKernel(u)
    ensures Lookup(SetPte(m, d, v, e), d, u) == if u == v then e else Lookup(m, d, u)
  {
    var t := EntryAt(m, d, v / ENTRIES).frame;
    var y, z := Tab(d, v / ENTRIES), Tab(d, u / ENTRIES);
    assert InRange(ds, y) && InRange(ds, z) && InRange(ds, Dir(d)) && Apart(m, y, Dir(d)) && Apart(m, y, z);
    SetEntryAt(m, t, v % ENTRIES, e, d, u / ENTRIES);
    if EntryAt(m, d, u / ENTRIES).Present? {
      SetEntryAt(m, t, v % ENTRIES, e, EntryAt(m, d, u / ENTRIES).frame, u % ENTRIES);
    }
  }

  /** Adding an empty table maps nothing. */
  lemma KernelPartTable(m: Mem, ds: set<nat>, d: nat, v: nat, k: map<nat, Entry>)
    requires Owned(m, ds) && d in ds && IsKernel(v) && EntryAt(m, d, v / ENTRIES) == Absent && m.free != []
    requires Top(m) < |m.pages| && TableAt(Take(m, EmptyTable()), d) && KernelPart(m, d, k)
    ensures var r := AddTable(Take(m, EmptyTable()), d, v / ENTRIES, Top(m));
      && (forall i: nat :: i < ENTRIES ==> (EntryAt(r, d, i).Present? <==> i in TablesOf(k) + {v / ENTRIES}))
      && (forall u: nat :: IsKernel(u) ==> Lookup(r, d, u) == if u in k then k[u] else Absent)
  {
    KernelTableAdded(m, ds, d, v);
    var q, t, i0 := Take(m, EmptyTable()), Top(m), v / ENTRIES;
    var r, e := AddTable(q, d, i0, t), Present(t, Flags(true, true));
    TakeTables(m, ds, d, EmptyTable());
    forall i: nat | i < ENTRIES ensures EntryAt(r, d, i) == if i == i0 then e else EntryAt(q, d, i) {
      SetEntryAt(q, d, i0, e, d, i);
    }
    forall u: nat | IsKernel(u) ensures Lookup(r, d, u) == Lookup(m, d, u) { KernelTableLookup(m, ds, d, v, u); }
  }

  lemma KernelTableLookup(m: Mem, ds: set<nat>, d: nat, v: nat, u: nat)
    requires Owned(m, ds) && d in ds && IsKernel(v) && EntryAt(m, d, v / ENTRIES) == Absent && m.free != []
    requires Top(m) < |m.pages| && TableAt(Take(m, EmptyTable()), d) && IsKernel(u)
    ensures Lookup(AddTable(Take(m, EmptyTable()), d, v / ENTRIES, Top(m)), d, u) == Lookup(m, d, u)
  {
    KernelTableAdded(m, ds, d, v);
    var q, t, i0 := Take(m, EmptyTable()), Top(m), v / ENTRIES;
    var e, z := Present(t, Flags(true, true)), Tab(d, u / ENTRIES);
    assert InRange(ds, z) && InRange(ds, Dir(d)) && Frame(q, z) == Frame(m, z) && Frame(q, Dir(d)) != Some(t) && Frame(q, z) != Some(t);
    assert Apart(q, z, Dir(d));
    SetEntryAt(q, d, i0, e, d, u / ENTRIES);
    SetEntryAt(q, d, i0, e, t, u % ENTRIES);
    if Frame(m, z).Some? {
      SetEntryAt(q, d, i0, e, Frame(m, z).value, u % ENTRIES);
      assert SlotOk(m, z) && Frame(m, z).value != t;
    }
  }

  lemma MapKernelThere(m: Mem, ds: set<nat>, d: nat, v: nat, e: Entry, k: map<nat, Entry>)
    requires HasKernelTable(m, ds, d, v) && KernelPart(m, d, k)
    ensures var r := MapKernel(m, ds, d, v, e); r.Some? && KernelStep(m, r.value, ds, d, v, e, k)
  {
    hide Owned, Accounted, Frame, SameUser, Lookup;
    TablesMore(k, v, e);
    KernelTable(m, ds, d, v);
    KernelPteOwned(m, ds, d, v, e);
    KernelPartStore(m, ds, d, v, e, k, TablesOf(k));
    PteFrames(m, SetPte(m, d, v, e), ds);
    assert TablesOf(k) + {v / ENTRIES} == TablesOf(k);
  }

  lemma MapKernelNew(m: Mem, ds: set<nat>, d: nat, v: nat, e: Entry, k: map<nat, Entry>)
    requires Owned(m, ds) && d in ds && IsKernel(v) && KernelPart(m, d, k)
    requires EntryAt(m, d, v / ENTRIES) == Absent && m.free != []
    ensures var r := MapKernel(m, ds, d, v, e); r.Some? && KernelStep(m, r.value, ds, d, v, e, k)
  {
    hide Owned, Accounted, Frame, SameUser, Lookup, TablesOf, EntryAt, SameUsers, Take;
    TablesMore(k, v, e);
    KernelTableAdded(m, ds, d, v);
    var n := AddTable(Take(m, EmptyTable()), d, v / ENTRIES, Top(m));
    KernelTable(n, ds, d, v);
    KernelPteOwned(n, ds, d, v, e);
    KernelPartTable(m, ds, d, v, k);
    KernelPartStore(n, ds, d, v, e, k, TablesOf(k) + {v / ENTRIES});
    TableFrames(m, ds, d, v);
    TableUsers(m, ds, d, v);
    var r := SetPte(n, d, v, e);
    PteFrames(n, r, ds);
    SameUsersTwice(m, n, r, ds);
  }

  /** One kernel mapping fails exactly if it needs a table and there is no frame. */
  lemma MapKernelOk(m: Mem, ds: set<nat>, d: nat, v: nat, e: Entry, k: map<nat, Entry>)
    requires Owned(m, ds) && d in ds && IsKernel(v) && KernelPart(m, d, k)
    ensures var r := MapKernel(m, ds, d, v, e);
      && (r.None? <==> |m.free| < KernelCost(k, v))
      && (r.Some? ==> KernelStep(m, r.value, ds, d, v, e, k))
  {
    hide Owned, Lookup;
    if EntryAt(m, d, v / ENTRIES).Present? {
      MapKernelThere(m, ds, d, v, e, k);
    } else if m.free != [] {
      MapKernelNew(m, ds, d, v, e, k);
    }
  }

  // ------------------------------------------------------------------ regions

  datatype Reached = Reached(ok: bool, m: Mem)

  /** mappages on a region of the kernel's half: it stops at the first page for which
      there is no page table and no frame. */
  ghost function MapRegion(m: Mem, ds: set<nat>, d: nat, g: Region): (r: Reached)
    requires Owned(m, ds) && d in ds && USER_PAGES <= g.v && g.v + g.n <= ALL_PAGES
    ensures Owned(r.m, ds)
    decreases g.n
  {
    if g.n == 0 then Reached(true, m)
    else
      var r := MapKernel(m, ds, d, g.v, Present(g.f, g.fl));
      if r.None? then Reached(false, m) else MapRegion(r.value, ds, d, Rest(g))
  }

  function Rest(g: Region): (r: Region)
    requires g.n > 0
  {
    Region(g.v + 1, g.n - 1, g.f + 1, g.fl)
  }

  /** The mappings `k` with a region's added. */
  function With(k: map<nat, Entry>, g: Region): (r: map<nat, Entry>)
    decreases g.n
  {
    if g.n == 0 then k else With(k[g.v := Present(g.f, g.fl)], Rest(g))
  }

  lemma {:induction false} WithIs(k: map<nat, Entry>, g: Region, u: nat)
    ensures u in With(k, g) <==> u in k || g.v <= u < g.v + g.n
    ensures g.v <= u < g.v + g.n ==> With(k, g)[u] == Present(g.f + (u - g.v), g.fl)
    ensures u in k && !(g.v <= u < g.v + g.n) ==> With(k, g)[u] == k[u]
    decreases g.n
  {
    if g.n > 0 { WithIs(k[g.v := Present(g.f, g.fl)], Rest(g), u); }
  }

  lemma {:induction false} TablesWith(k: map<nat, Entry>, g: Region)
    ensures |TablesOf(k)| <= |TablesOf(With(k, g))|
    decreases g.n
  {
    if g.n > 0 {
      TablesMore(k, g.v, Present(g.f, g.fl));
      TablesWith(k[g.v := Present(g.f, g.fl)], Rest(g));
    }
  }

  /** How far the frames go: `j` are the mappings wanted, `k` those already there. */
  ghost predicate MappedAll(m: Mem, r: Reached, ds: set<nat>, d: nat, k: map<nat, Entry>, j: map<nat, Entry>) {
    && Owned(r.m, ds) && SameUsers(m, r.m, ds) && SameFrames(m, r.m, ds) && SameOthers(m, r.m, ds, d)
    && |TablesOf(k)| <= |TablesOf(j)|
    && (r.ok <==> |m.free| >= |TablesOf(j)| - |TablesOf(k)|)
    && (r.ok ==> KernelPart(r.m, d, j) && r.m.free == m.free[..|m.free| - (|TablesOf(j)| - |TablesOf(k)|)])
    && (!r.ok ==> r.m.free == [])
  }

  lemma MappedFirst(m: Mem, n: Mem, r: Reached, ds: set<nat>, d: nat, v: nat, e: Entry, k: map<nat, Entry>, j: map<nat, Entry>)
    requires KernelStep(m, n, ds, d, v, e, k) && MappedAll(n, r, ds, d, k[v := e], j)
    ensures MappedAll(m, r, ds, d, k, j)
  {
    hide Owned, KernelPart, TablesOf, Accounted, SameUser;
    TablesMore(k, v, e);
    SameUsersTwice(m, n, r.m, ds);
  }

  lemma {:induction false} RegionExact(m: Mem, ds: set<nat>, d: nat, g: Region, k: map<nat, Entry>)
    requires Owned(m, ds) && d in ds && USER_PAGES <= g.v && g.v + g.n <= ALL_PAGES && KernelPart(m, d, k)
    ensures MappedAll(m, MapRegion(m, ds, d, g), ds, d, k, With(k, g))
    decreases g.n
  {
    hide Owned, KernelPart, TablesOf, KernelStep;
    if g.n == 0 {
      NothingMapped(m, ds, d, k);
    } else {
      var e := Present(g.f, g.fl);
      MapKernelOk(m, ds, d, g.v, e, k);
      var r := MapKernel(m, ds, d, g.v, e);
      if r.None? {
        TablesMore(k, g.v, e);
        TablesWith(k[g.v := e], Rest(g));
        SameItself(m, ds);
      } else {
        KernelStepPart(m, r.value, ds, d, g.v, e, k);
        RegionExact(r.value, ds, d, Rest(g), k[g.v := e]);
        MappedFirst(m, r.value, MapRegion(r.value, ds, d, Rest(g)), ds, d, g.v, e, k, With(k, g));
      }
    }
  }

  lemma KernelStepPart(m: Mem, r: Mem, ds: set<nat>, d: nat, v: nat, e: Entry, k: map<nat, Entry>)
    requires KernelStep(m, r, ds, d, v, e, k)
    ensures KernelPart(r, d, k[v := e])
  {
  }

  lemma SameItself(m: Mem, ds: set<nat>)
    ensures SameUsers(m, m, ds) && SameFrames(m, m, ds) && forall d :: SameOthers(m, m, ds, d)
  {
  }

  lemma NothingMapped(m: Mem, ds: set<nat>, d: nat, k: map<nat, Entry>)
    requires Owned(m, ds) && KernelPart(m, d, k)
    ensures MappedAll(m, Reached(true, m), ds, d, k, k)
  {
    SameItself(m, ds);
  }

  /** The mappings of kmap from entry `i` on, added to `k`. */
  function WithAll(k: map<nat, Entry>, kmap: seq<Region>, i: nat): (r: map<nat, Entry>)
    requires i <= |kmap|
    decreases |kmap| - i
  {
    if i == |kmap| then k else WithAll(With(k, kmap[i]), kmap, i + 1)
  }

  /** All the kernel's mappings. */
  function Kernel(kmap: seq<Region>): (k: map<nat, Entry>) { WithAll(map[], kmap, 0) }

  predicate InKernel(g: Region) { USER_PAGES <= g.v && 0 < g.n && g.v + g.n <= ALL_PAGES }

  predicate AllInKernel(kmap: seq<Region>) { forall i :: 0 <= i < |kmap| ==> InKernel(kmap[i]) }

  /** setupkvm's loop over kmap. */
  ghost function MapAll(m: Mem, ds: set<nat>, d: nat, kmap: seq<Region>, i: nat): (r: Reached)
    requires Owned(m, ds) && d in ds && AllInKernel(kmap) && i <= |kmap|
    ensures Owned(r.m, ds)
    decreases |kmap| - i
  {
    if i == |kmap| then Reached(true, m)
    else
      assert InKernel(kmap[i]);
      var r := MapRegion(m, ds, d, kmap[i]);
      if r.ok then MapAll(r.m, ds, d, kmap, i + 1) else r
  }

  lemma {:induction false} TablesWithAll(k: map<nat, Entry>, kmap: seq<Region>, i: nat)
    requires i <= |kmap|
    ensures |TablesOf(k)| <= |TablesOf(WithAll(k, kmap, i))|
    decreases |kmap| - i
  {
    if i < |kmap| {
      TablesWith(k, kmap[i]);
      TablesWithAll(With(k, kmap[i]), kmap, i + 1);
    }
  }

  lemma MappedRest(m: Mem, a: Reached, r: Reached, ds: set<nat>, d: nat, k: map<nat, Entry>, h: map<nat, Entry>, j: map<nat, Entry>)
    requires a.ok && MappedAll(m, a, ds, d, k, h) && MappedAll(a.m, r, ds, d, h, j)
    ensures MappedAll(m, r, ds, d, k, j)
  {
    hide Owned, KernelPart, TablesOf, Accounted, SameUser;
    SameUsersTwice(m, a.m, r.m, ds);
  }

  lemma {:induction false} AllExact(m: Mem, ds: set<nat>, d: nat, kmap: seq<Region>, i: nat, k: map<nat, Entry>)
    requires Owned(m, ds) && d in ds && AllInKernel(kmap) && i <= |kmap| && KernelPart(m, d, k)
    ensures MappedAll(m, MapAll(m, ds, d, kmap, i), ds, d, k, WithAll(k, kmap, i))
    decreases |kmap| - i
  {
    hide Owned, KernelPart, TablesOf;
    if i == |kmap| {
      NothingMapped(m, ds, d, k);
    } else {
      assert InKernel(kmap[i]);
      RegionExact(m, ds, d, kmap[i], k);
      var r, h := MapRegion(m, ds, d, kmap[i]), With(k, kmap[i]);
      if r.ok {
        AllExact(r.m, ds, d, kmap, i + 1, h);
        MappedRest(m, r, MapAll(r.m, ds, d, kmap, i + 1), ds, d, k, h, WithAll(k, kmap, i));
      } else {
        TablesWithAll(h, kmap, i + 1);
      }
    }
  }

  lemma {:induction false} KernelKeys(k: map<nat, Entry>, kmap: seq<Region>, i: nat, u: nat)
    requires AllInKernel(kmap) && i <= |kmap| && u in WithAll(k, kmap, i)
    ensures u in k || IsKernel(u)
    decreases |kmap| - i
  {
    if i < |kmap| {
      assert InKernel(kmap[i]);
      KernelKeys(With(k, kmap[i]), kmap, i + 1, u);
      WithIs(k, kmap[i], u);
    }
  }

  /** The tables of the kernel's half are not the user's. */
  lemma KernelTablesHigh(kmap: seq<Region>, i: nat)
    requires AllInKernel(kmap) && i in TablesOf(Kernel(kmap))
    ensures USER_PAGES / ENTRIES <= i < ENTRIES
  {
    var u :| u in Kernel(kmap) && u / ENTRIES == i;
    KernelKeys(map[], kmap, 0, u);
  }

  // ----------------------------------------------------------------- setupkvm

  datatype NewDir = NewDir(dir: Option<nat>, m: Mem)

  ghost function SetupKvm(m: Mem, ds: set<nat>, kmap: seq<Region>): (r: NewDir)
    requires Owned(m, ds) && AllInKernel(kmap)
  {
    if m.free == [] then NewDir(None, m)
    else
      NewSpace(m, ds);
      var g := MapAll(Take(m, EmptyTable()), ds + {Top(m)}, Top(m), kmap, 0);
      NewDir(if g.ok then Some(Top(m)) else None, g.m)
  }

  /** The frames setupkvm needs: the directory's and the tables'. */
  ghost function KernelFrames(kmap: seq<Region>): (n: nat) { 1 + |TablesOf(Kernel(kmap))| }

  /** The new space e has the kernel's mappings and no user memory, nothing was lost,
      and all other spaces are as before. */
  ghost predicate Started(m: Mem, n: Mem, ds: set<nat>, e: nat, kmap: seq<Region>) {
    && e !in ds && Owned(n, ds + {e}) && KernelPart(n, e, Kernel(kmap))
    && Contiguous(n, e, 0) && (forall j: nat :: j < USER_PAGES / ENTRIES ==> EntryAt(n, e, j) == Absent)
    && SameUsers(m, n, ds) && (forall f: nat :: Accounted(n, ds + {e}, f) <==> Accounted(m, ds, f))
    && KernelFrames(kmap) <= |m.free| && n.free == m.free[..|m.free| - KernelFrames(kmap)]
  }

  lemma EmptyKernel(m: Mem, e: nat)
    requires forall j: nat :: EntryAt(m, e, j) == Absent
    ensures KernelPart(m, e, map[]) && |TablesOf(map[])| == 0
  {
    assert TablesOf(map[]) == {};
  }

  lemma NoUserTables(n: Mem, e: nat, kmap: seq<Region>)
    requires AllInKernel(kmap) && KernelPart(n, e, Kernel(kmap))
    ensures Contiguous(n, e, 0) && forall j: nat :: j < USER_PAGES / ENTRIES ==> EntryAt(n, e, j) == Absent
  {
    forall j: nat | j < USER_PAGES / ENTRIES ensures EntryAt(n, e, j) == Absent {
      if j in TablesOf(Kernel(kmap)) { KernelTablesHigh(kmap, j); }
      assert !EntryAt(n, e, j).Present?;
    }
    forall v | 0 <= v < USER_PAGES ensures !Lookup(n, e, v).Present? { assert EntryAt(n, e, v / ENTRIES) == Absent; }
  }

  lemma OwnedSub(m: Mem, es: set<nat>, ds: set<nat>)
    requires Owned(m, es) && ds <= es
    ensures Owned(m, ds)
  {
    forall x | InRange(ds, x) ensures SlotOk(m, x) { assert InRange(es, x); }
    forall x, y | InRange(ds, x) && InRange(ds, y) ensures Apart(m, x, y) { assert InRange(es, x) && InRange(es, y); }
  }

  lemma SameUsersSub(m: Mem, n: Mem, r: Mem, es: set<nat>, ds: set<nat>)
    requires SameUsers(m, n, ds) && SameUsers(n, r, es) && ds <= es
    ensures SameUsers(m, r, ds)
  {
    forall x | InRange(ds, x) && x.User? ensures SameUser(m, r, x) {
      assert InRange(es, x) && SameUser(m, n, x) && SameUser(n, r, x);
    }
  }

  /** Taking the directory's frame loses nothing once it is a space of its own. */
  lemma DirFrames(m: Mem, ds: set<nat>)
    requires Owned(m, ds) && m.free != [] && Top(m) < |m.pages|
    ensures forall f: nat :: Accounted(Take(m, EmptyTable()), ds + {Top(m)}, f) <==> Accounted(m, ds, f)
  {
    var e, n := Top(m), Take(m, EmptyTable());
    NewSpace(m, ds);
    assert m.free[|m.free| - 1] == e && Free(m, e);
    forall f: nat | Accounted(m, ds, f) ensures Accounted(n, ds + {e}, f) {
      if f == e {
        assert InRange(ds + {e}, Dir(e)) && Frame(n, Dir(e)) == Some(e);
      } else {
        TakeAccounted(m, ds, EmptyTable(), f);
        if !Free(n, f) {
          var x :| InRange(ds, x) && Frame(n, x) == Some(f);
          assert InRange(ds + {e}, x);
        }
      }
    }
    forall f: nat | Accounted(n, ds + {e}, f) ensures Accounted(m, ds, f) {
      if Free(n, f) {
        var k :| 0 <= k < |n.free| && n.free[k] == f;
        assert m.free[k] == f;
      } else {
        var x :| InRange(ds + {e}, x) && Frame(n, x) == Some(f);
        if InRange(ds, x) { assert Frame(m, x) == Some(f); } else { assert x == Dir(e); }
      }
    }
  }

  /** setupkvm, exactly: it succeeds if and only if there are frames for the directory
      and the kernel's page tables. If it fails it keeps what it got: every frame that
      was free is lost. */
  lemma SetupExact(m: Mem, ds: set<nat>, kmap: seq<Region>)
    requires Owned(m, ds) && AllInKernel(kmap)
    ensures var r := SetupKvm(m, ds, kmap);
      && (r.dir.Some? <==> |m.free| >= KernelFrames(kmap))
      && (r.dir.Some? ==> Started(m, r.m, ds, r.dir.value, kmap))
      && (r.dir.None? ==> Owned(r.m, ds) && SameUsers(m, r.m, ds))
      && (r.dir.None? ==> forall f: nat :: Free(m, f) ==> !Accounted(r.m, ds, f))
  {
    hide Owned, Accounted, KernelPart, TablesOf, Contiguous, SameFrames, SameOthers;
    if m.free == [] {
      SameItself(m, ds);
      NoneFree(m);
    } else {
      NewSpace(m, ds);
      DirFrames(m, ds);
      var e, n := Top(m), Take(m, EmptyTable());
      EmptyKernel(n, e);
      AllExact(n, ds + {e}, e, kmap, 0, map[]);
      var g := MapAll(n, ds + {e}, e, kmap, 0);
      assert SameUsers(m, n, ds) by { SpacesUsers(m, n, ds); }
      SameUsersSub(m, n, g.m, ds + {e}, ds);
      if g.ok {
        NoUserTables(g.m, e, kmap);
        KeptFrames(m, n, g.m, ds, e);
        assert m.free[..|m.free| - 1][..|m.free| - KernelFrames(kmap)] == m.free[..|m.free| - KernelFrames(kmap)];
      } else {
        OwnedSub(g.m, ds + {e}, ds);
        AllLost(m, n, g.m, ds, e);
      }
    }
  }

  lemma NoneFree(m: Mem)
    requires m.free == []
    ensures forall f: nat :: !Free(m, f)
  {
  }

  lemma SpacesUsers(m: Mem, n: Mem, ds: set<nat>)
    requires |n.pages| == |m.pages| && forall x :: InRange(ds, x) ==> Frame(n, x) == Frame(m, x) && (x.User? ==> SameUser(m, n, x))
    ensures SameUsers(m, n, ds)
  {
  }

  lemma KeptFrames(m: Mem, n: Mem, r: Mem, ds: set<nat>, e: nat)
    requires forall f: nat :: Accounted(n, ds + {e}, f) <==> Accounted(m, ds, f)
    requires SameFrames(n, r, ds + {e})
    ensures forall f: nat :: Accounted(r, ds + {e}, f) <==> Accounted(m, ds, f)
  {
  }

  lemma AllLost(m: Mem, n: Mem, r: Mem, ds: set<nat>, e: nat)
    requires Owned(m, ds) && e !in ds && r.free == [] && SameOthers(n, r, ds + {e}, e)
    requires forall x :: InRange(ds, x) ==> Frame(n, x) == Frame(m, x)
    ensures forall f: nat :: Free(m, f) ==> !Accounted(r, ds, f)
  {
    forall f: nat, x | Free(m, f) && InRange(ds, x) ensures Frame(r, x) != Some(f) {
      assert InRange(ds + {e}, x) && SlotOk(m, x);
    }
    NoneFree(r);
  }

  // ----------------------------------------------------------- the code's table

  predicate Contains(g: Region, u: nat) { g.v <= u < g.v + g.n }

  /** No two entries of kmap share a page. */
  ghost predicate NoOverlap(kmap: seq<Region>) {
    forall i, j, u :: 0 <= i < j < |kmap| && Contains(kmap[i], u) ==> !Contains(kmap[j], u)
  }

  /** kmap, in a kernel whose data begins at page `data`. */
  function CodeMap(data: nat): (r: seq<Region>)
    requires 0x80100 < data < 0x8E000
  {
    [Region(0x80000, 0x100, 0, Flags(true, false)), Region(0x80100, data - 0x80100, 0x100, Flags(false, false)),
     Region(data, 0x8E000 - data, data - 0x80000, Flags(true, false)), Region(0xFE000, 0x2000, 0xFE000, Flags(true, false))]
  }

  lemma CodeMapOk(data: nat)
    requires 0x80100 < data < 0x8E000
    ensures AllInKernel(CodeMap(data)) && NoOverlap(CodeMap(data))
  {
  }

  function Numbers(a: nat, b: nat): (r: set<nat>)
    requires a <= b
    ensures |r| == b - a && forall t :: t in r <==> a <= t < b
  {
    if a == b then {} else Numbers(a, b - 1) + {b - 1}
  }

  /** The pages that the code maps. */
  lemma CodePages(data: nat, u: nat)
    requires 0x80100 < data < 0x8E000
    ensures u in Kernel(CodeMap(data)) <==> 0x80000 <= u < 0x8E000 || 0xFE000 <= u < 0x100000
  {
    hide With;
    var c := CodeMap(data);
    var none: map<nat, Entry> := map[];
    var k0 := With(none, c[0]);
    var k1 := With(k0, c[1]);
    var k2 := With(k1, c[2]);
    var k3 := With(k2, c[3]);
    assert WithAll(k2, c, 3) == WithAll(k3, c, 4) == k3;
    assert WithAll(k0, c, 1) == WithAll(k1, c, 2) == WithAll(k2, c, 3);
    WithIs(none, c[0], u);
    WithIs(k0, c[1], u);
    WithIs(k1, c[2], u);
    WithIs(k2, c[3], u);
  }

  /** What the code maps page u to, in a kernel whose data begins at page `data`: memory
      below 0xE000 pages shows at 0x80000, where only the kernel's text is not writable;
      the devices show at their own addresses; nothing else is mapped. */
  function KernelEntry(data: nat, u: nat): (e: Entry) {
    if 0x80000 <= u < 0x8E000 then Present(u - 0x80000, Flags(!(0x80100 <= u < data), false))
    else if 0xFE000 <= u < 0x100000 then Present(u, Flags(true, false))
    else Absent
  }

  /** kmap says so. */
  lemma CodeEntries(data: nat, u: nat)
    requires 0x80100 < data < 0x8E000
    ensures u in Kernel(CodeMap(data)) <==> KernelEntry(data, u).Present?
    ensures u in Kernel(CodeMap(data)) ==> Kernel(CodeMap(data))[u] == KernelEntry(data, u)
  {
    hide With;
    CodePages(data, u);
    var c := CodeMap(data);
    var none: map<nat, Entry> := map[];
    var k0 := With(none, c[0]);
    var k1 := With(k0, c[1]);
    var k2 := With(k1, c[2]);
    assert Kernel(c) == With(k2, c[3]) by {
      assert WithAll(k2, c, 3) == WithAll(With(k2, c[3]), c, 4);
      assert WithAll(k0, c, 1) == WithAll(k1, c, 2) == WithAll(k2, c, 3);
    }
    WithIs(none, c[0], u);
    WithIs(k0, c[1], u);
    WithIs(k1, c[2], u);
    WithIs(k2, c[3], u);
  }

  /** The whole address space of directory e is what the code's kmap asks for. */
  ghost predicate HasKernel(m: Mem, e: nat, data: nat) {
    forall u :: 0 <= u < 0x100000 ==> Lookup(m, e, u) == KernelEntry(data, u)
  }

  /** With the code's kmap setupkvm makes r of m. */
  ghost predicate CodeDir(m: Mem, r: NewDir, data: nat) {
    (r.dir.Some? <==> |m.free| >= 65) && (r.dir.Some? ==> HasKernel(r.m, r.dir.value, data))
  }

  /** The directory that setupkvm returns has exactly these mappings. */
  lemma CodeSetup(m: Mem, ds: set<nat>, data: nat)
    requires 0x80100 < data < 0x8E000 && Owned(m, ds) && AllInKernel(CodeMap(data))
    ensures CodeDir(m, SetupKvm(m, ds, CodeMap(data)), data)
  {
    hide Owned, KernelFrames, CodeMap, SetupKvm, AllInKernel, SameUsers, Accounted, Lookup, TablesOf;
    CodeFrames(data);
    SetupExact(m, ds, CodeMap(data));
    var r := SetupKvm(m, ds, CodeMap(data));
    if r.dir.Some? {
      forall u | 0 <= u < 0x100000 ensures Lookup(r.m, r.dir.value, u) == KernelEntry(data, u) {
        CodeEntries(data, u);
        if u < USER_PAGES { assert !Lookup(r.m, r.dir.value, u).Present?; } else { assert IsKernel(u); }
      }
    }
  }

  /** With the code's kmap, setupkvm takes 65 frames. */
  lemma CodeFrames(data: nat)
    requires 0x80100 < data < 0x8E000
    ensures KernelFrames(CodeMap(data)) == 65
  {
    hide Kernel, Numbers;
    var k, low, high := Kernel(CodeMap(data)), Numbers(512, 568), Numbers(1016, 1024);
    forall t: nat ensures t in TablesOf(k) <==> t in low + high {
      if t in TablesOf(k) {
        var u :| u in k && u / ENTRIES == t;
        CodePages(data, u);
      }
      if t in low + high {
        CodePages(data, t * ENTRIES);
        assert t * ENTRIES / ENTRIES == t;
      }
    }
    assert TablesOf(k) == low + high && low !! high;
  }

  /** A machine with one frame left: setupkvm fails on the code's kmap, and the frame is
      neither free nor in use afterwards. */
  lemma SetupLosesFrame(data: nat) returns (m: Mem)
    requires 0x80100 < data < 0x8E000
    ensures Owned(m, {}) && m.free == [0] && AllInKernel(CodeMap(data))
    ensures var r := SetupKvm(m, {}, CodeMap(data)); r.dir.None? && !Accounted(r.m, {}, 0)
  {
    m := Mem([0], [Filled(0)]);
    assert Owned(m, {});
    hide Owned, KernelFrames, CodeMap, SetupKvm, AllInKernel, Accounted;
    CodeMapOk(data);
    CodeFrames(data);
    SetupExact(m, {}, CodeMap(data));
    assert m.free[0] == 0 && Free(m, 0);
  }
}
