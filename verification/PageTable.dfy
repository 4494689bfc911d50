/** User address spaces (vm.c) over the frame supply (kalloc.c): two-level page tables
    kept in physical frames. Frames and virtual pages are numbered; a page table page
    and a page directory are both tables of 1024 entries. */
module PageTable {
  import opened Options

  const PGSIZE: nat := 4096
  const ENTRIES: nat := 1024
  /** Pages below KERNBASE */
  const USER_PAGES: nat := 524288

  datatype Flags = Flags(w: bool, u: bool)

  datatype Entry = Absent | Present(frame: nat, flags: Flags)

  datatype Page = Data(bytes: seq<int>) | Table(entries: seq<Entry>)

  /** Physical memory: the free list, most recently freed last, and every frame. */
  datatype Mem = Mem(free: seq<nat>, pages: seq<Page>)

  function Filled(b: int): (p: Page) { Data(seq(PGSIZE, _ => b)) }

  function EmptyTable(): (p: Page)
    ensures IsTable(p) && forall i :: 0 <= i < ENTRIES ==> p.entries[i] == Absent
  {
    Table(seq(ENTRIES, _ => Absent))
  }

  predicate IsTable(p: Page) { p.Table? && |p.entries| == ENTRIES }

  predicate TableAt(m: Mem, f: nat) { f < |m.pages| && IsTable(m.pages[f]) }

  function EntryAt(m: Mem, f: nat, i: nat): (e: Entry) {
    if TableAt(m, f) && i < ENTRIES then m.pages[f].entries[i] else Absent
  }

  /** The mapping of virtual page v in the address space with directory d. */
  function Lookup(m: Mem, d: nat, v: nat): (e: Entry) {
    var pde := EntryAt(m, d, v / ENTRIES);
    if pde.Present? then EntryAt(m, pde.frame, v % ENTRIES) else Absent
  }

  // ---------------------------------------------------------------- ownership

  /** What an address space keeps in frames of its own: its directory, its page table
      pages, and its user pages. */
  datatype Slot = Dir(d: nat) | Tab(d: nat, i: nat) | User(d: nat, v: nat)

  predicate InRange(ds: set<nat>, x: Slot) {
    x.d in ds && (x.Tab? ==> x.i < ENTRIES) && (x.User? ==> x.v < USER_PAGES)
  }

  function Frame(m: Mem, x: Slot): (f: Option<nat>) {
    match x
    case Dir(d) => Some(d)
    case Tab(d, i) => var e := EntryAt(m, d, i); if e.Present? then Some(e.frame) else None
    case User(d, v) => var e := Lookup(m, d, v); if e.Present? then Some(e.frame) else None
  }

  ghost predicate Free(m: Mem, f: nat) { exists k :: 0 <= k < |m.free| && m.free[k] == f }

  /** The frame of slot x holds the right kind of page and is not free. */
  ghost predicate SlotOk(m: Mem, x: Slot) {
    var f := Frame(m, x);
    f.Some? ==> f.value < |m.pages| && !Free(m, f.value) &&
                if x.User? then m.pages[f.value].Data? else IsTable(m.pages[f.value])
  }

  predicate Apart(m: Mem, x: Slot, y: Slot) { Frame(m, x).Some? && Frame(m, x) == Frame(m, y) ==> x == y }

  ghost predicate FreeOk(m: Mem) {
    && (forall k :: 0 <= k < |m.free| ==> m.free[k] < |m.pages|)
    && (forall j, k :: 0 <= j < k < |m.free| ==> m.free[j] != m.free[k])
  }

  /** The address spaces with directories ds share no frame with each other, with
      themselves or with the free list. */
  ghost predicate Owned(m: Mem, ds: set<nat>) {
    && FreeOk(m)
    && (forall x :: InRange(ds, x) ==> SlotOk(m, x))
    && (forall x, y :: InRange(ds, x) && InRange(ds, y) ==> Apart(m, x, y))
  }

  /** Frame f is taken off the free list and used nowhere yet. */
  ghost predicate Fresh(m: Mem, ds: set<nat>, f: nat) {
    && f < |m.pages| && !Free(m, f)
    && forall x :: InRange(ds, x) ==> Frame(m, x) != Some(f)
  }

  // ------------------------------------------------------------------- frames

  function Top(m: Mem): (f: nat)
    requires m.free != []
  {
    m.free[|m.free| - 1]
  }

  /** kalloc */
  function Pop(m: Mem): (r: Mem)
    requires m.free != []
  {
    Mem(m.free[..|m.free| - 1], m.pages)
  }

  function SetPage(m: Mem, f: nat, p: Page): (r: Mem)
    requires f < |m.pages|
  {
    Mem(m.free, m.pages[f := p])
  }

  /** kfree */
  function Push(m: Mem, f: nat): (r: Mem)
    requires f < |m.pages|
  {
    Mem(m.free + [f], m.pages[f := Filled(1)])
  }

  lemma FramePages(m: Mem, r: Mem, x: Slot)
    requires r.pages == m.pages
    ensures Frame(r, x) == Frame(m, x)
  {
  }

  lemma PopOwned(m: Mem, ds: set<nat>)
    requires Owned(m, ds) && m.free != []
    ensures Owned(Pop(m), ds) && Fresh(Pop(m), ds, Top(m))
  {
    var r, f := Pop(m), Top(m);
    assert Free(m, f);
    forall x | InRange(ds, x) ensures SlotOk(r, x) && Frame(r, x) != Some(f) { assert SlotOk(m, x); FramePages(m, r, x); }
    forall x, y | InRange(ds, x) && InRange(ds, y) ensures Apart(r, x, y) { assert Apart(m, x, y); }
  }

  /** Writing to a frame nobody uses changes no slot. */
  lemma SetPageFrame(m: Mem, ds: set<nat>, f: nat, p: Page, x: Slot)
    requires Owned(m, ds) && Fresh(m, ds, f) && InRange(ds, x)
    ensures Frame(SetPage(m, f, p), x) == Frame(m, x) && (x.User? ==> SameUser(m, SetPage(m, f, p), x))
  {
    assert InRange(ds, Dir(x.d)) && Frame(m, Dir(x.d)) != Some(f);
    if x.User? {
      var t := Tab(x.d, x.v / ENTRIES);
      assert InRange(ds, t);
      assert Frame(m, t) != Some(f) && Frame(m, x) != Some(f);
    }
  }

  lemma SetPageOwned(m: Mem, ds: set<nat>, f: nat, p: Page)
    requires Owned(m, ds) && Fresh(m, ds, f)
    ensures Owned(SetPage(m, f, p), ds) && Fresh(SetPage(m, f, p), ds, f)
  {
    var r := SetPage(m, f, p);
    forall x | InRange(ds, x) ensures SlotOk(r, x) && Frame(r, x) != Some(f) {
      assert SlotOk(m, x) && Frame(m, x) != Some(f);
      SetPageFrame(m, ds, f, p, x);
    }
    forall x, y | InRange(ds, x) && InRange(ds, y) ensures Apart(r, x, y) {
      assert Apart(m, x, y);
      SetPageFrame(m, ds, f, p, x);
      SetPageFrame(m, ds, f, p, y);
    }
  }

  // ------------------------------------------------------------------ entries

  function SetEntry(m: Mem, f: nat, i: nat, e: Entry): (r: Mem)
    requires TableAt(m, f) && i < ENTRIES
  {
    SetPage(m, f, Table(m.pages[f].entries[i := e]))
  }

  lemma SetEntryAt(m: Mem, f: nat, i: nat, e: Entry, g: nat, j: nat)
    requires TableAt(m, f) && i < ENTRIES
    ensures EntryAt(SetEntry(m, f, i, e), g, j) == if g == f && j == i then e else EntryAt(m, g, j)
  {
  }

  /** User page x is mapped as before, to the same contents. */
  predicate SameUser(m: Mem, r: Mem, x: Slot)
    requires x.User?
  {
    var e := Lookup(m, x.d, x.v);
    Lookup(r, x.d, x.v) == e && (e.Present? && e.frame < |m.pages| ==> e.frame < |r.pages| && r.pages[e.frame] == m.pages[e.frame])
  }

  /** walkpgdir makes t, an empty table nobody uses, the page table of entry i. */
  function AddTable(m: Mem, d: nat, i: nat, t: nat): (r: Mem)
    requires TableAt(m, d) && i < ENTRIES
  {
    SetEntry(m, d, i, Present(t, Flags(true, true)))
  }

  ghost predicate CanAddTable(m: Mem, ds: set<nat>, d: nat, i: nat, t: nat) {
    && Owned(m, ds) && d in ds && i < ENTRIES && TableAt(m, d) && EntryAt(m, d, i) == Absent
    && Fresh(m, ds, t) && m.pages[t] == EmptyTable()
  }

  lemma AddTableFrame(m: Mem, ds: set<nat>, d: nat, i: nat, t: nat, x: Slot)
    requires CanAddTable(m, ds, d, i, t) && InRange(ds, x)
    ensures Frame(AddTable(m, d, i, t), x) == if x == Tab(d, i) then Some(t) else Frame(m, x)
    ensures x.User? ==> SameUser(m, AddTable(m, d, i, t), x)
  {
    var r := AddTable(m, d, i, t);
    var e := Present(t, Flags(true, true));
    assert InRange(ds, Dir(d)) && SlotOk(m, Dir(d)) && Frame(m, Dir(d)) != Some(t);
    if x.Tab? { SetEntryAt(m, d, i, e, x.d, x.i); }
    if x.User? {
      var hi, lo := x.v / ENTRIES, x.v % ENTRIES;
      SetEntryAt(m, d, i, e, x.d, hi);
      var y := Tab(x.d, hi);
      assert InRange(ds, y) && Apart(m, y, Dir(d));
      if Frame(m, y).Some? { SetEntryAt(m, d, i, e, Frame(m, y).value, lo); }
      SetEntryAt(m, d, i, e, t, lo);
      assert SlotOk(m, x) && Apart(m, x, Dir(d));
    }
  }

  lemma AddTableOwned(m: Mem, ds: set<nat>, d: nat, i: nat, t: nat)
    requires CanAddTable(m, ds, d, i, t)
    ensures Owned(AddTable(m, d, i, t), ds)
  {
    var r := AddTable(m, d, i, t);
    assert InRange(ds, Dir(d)) && SlotOk(m, Dir(d)) && Frame(m, Dir(d)) != Some(t);
    forall x | InRange(ds, x) ensures SlotOk(r, x) {
      AddTableFrame(m, ds, d, i, t, x);
      assert SlotOk(m, x) && Apart(m, x, Dir(d));
    }
    forall x, y | InRange(ds, x) && InRange(ds, y) ensures Apart(r, x, y) {
      assert Apart(m, x, y) && Frame(m, x) != Some(t) && Frame(m, y) != Some(t);
      AddTableFrame(m, ds, d, i, t, x);
      AddTableFrame(m, ds, d, i, t, y);
    }
  }

  /** mappages stores the entry of page v in its table. */
  function SetPte(m: Mem, d: nat, v: nat, e: Entry): (r: Mem)
    requires EntryAt(m, d, v / ENTRIES).Present? && TableAt(m, EntryAt(m, d, v / ENTRIES).frame)
  {
    SetEntry(m, EntryAt(m, d, v / ENTRIES).frame, v % ENTRIES, e)
  }

  ghost predicate HasTable(m: Mem, ds: set<nat>, d: nat, v: nat) {
    Owned(m, ds) && d in ds && v < USER_PAGES && EntryAt(m, d, v / ENTRIES).Present?
  }

  lemma TableOfPage(m: Mem, ds: set<nat>, d: nat, v: nat)
    requires HasTable(m, ds, d, v)
    ensures TableAt(m, EntryAt(m, d, v / ENTRIES).frame)
  {
    assert InRange(ds, Tab(d, v / ENTRIES)) && SlotOk(m, Tab(d, v / ENTRIES));
  }

  /** Changing the entry of page v changes that slot and no other, of any space. */
  lemma SetPteFrame(m: Mem, ds: set<nat>, d: nat, v: nat, e: Entry, x: Slot)
    requires HasTable(m, ds, d, v) && TableAt(m, EntryAt(m, d, v / ENTRIES).frame) && InRange(ds, x)
    ensures Frame(SetPte(m, d, v, e), x) == if x == User(d, v) then (if e.Present? then Some(e.frame) else None) else Frame(m, x)
    ensures x.User? && x != User(d, v) ==> SameUser(m, SetPte(m, d, v, e), x)
  {
    var y := Tab(d, v / ENTRIES);
    var t := EntryAt(m, d, v / ENTRIES).frame;
    assert InRange(ds, y) && Frame(m, y) == Some(t);
    assert InRange(ds, Dir(x.d)) && Apart(m, y, Dir(x.d));
    if x.Tab? { SetEntryAt(m, t, v % ENTRIES, e, x.d, x.i); }
    if x.User? {
      var z := Tab(x.d, x.v / ENTRIES);
      SetEntryAt(m, t, v % ENTRIES, e, x.d, x.v / ENTRIES);
      assert InRange(ds, z) && Apart(m, y, z);
      if Frame(m, z).Some? { SetEntryAt(m, t, v % ENTRIES, e, Frame(m, z).value, x.v % ENTRIES); }
      assert SlotOk(m, x) && Apart(m, x, y);
    }
  }

  /** mappages: page v gets frame f, which nobody uses. */
  lemma MapOwned(m: Mem, ds: set<nat>, d: nat, v: nat, f: nat, fl: Flags)
    requires HasTable(m, ds, d, v) && TableAt(m, EntryAt(m, d, v / ENTRIES).frame)
    requires Lookup(m, d, v) == Absent && Fresh(m, ds, f) && m.pages[f].Data?
    ensures Owned(SetPte(m, d, v, Present(f, fl)), ds)
  {
    var e := Present(f, fl);
    var r := SetPte(m, d, v, e);
    var y := Tab(d, v / ENTRIES);
    assert InRange(ds, y) && Frame(m, y) != Some(f);
    forall x | InRange(ds, x) ensures SlotOk(r, x) {
      SetPteFrame(m, ds, d, v, e, x);
      assert SlotOk(m, x) && Apart(m, x, y);
    }
    forall x, z | InRange(ds, x) && InRange(ds, z) ensures Apart(r, x, z) {
      assert Apart(m, x, z) && Frame(m, x) != Some(f) && Frame(m, z) != Some(f);
      SetPteFrame(m, ds, d, v, e, x);
      SetPteFrame(m, ds, d, v, e, z);
    }
  }

  // ------------------------------------------------------------------ freeing

  /** deallocuvm at a mapped page: kfree the frame, clear the entry. */
  function Unmap(m: Mem, d: nat, v: nat): (r: Mem)
    requires EntryAt(m, d, v / ENTRIES).Present? && TableAt(m, EntryAt(m, d, v / ENTRIES).frame)
    requires Lookup(m, d, v).Present? && Lookup(m, d, v).frame < |m.pages|
  {
    var c := SetPte(m, d, v, Absent);
    Push(c, Lookup(m, d, v).frame)
  }

  /** A frame nobody uses any more goes back to the free list. */
  lemma PushOwned(m: Mem, ds: set<nat>, f: nat)
    requires Owned(m, ds) && Fresh(m, ds, f)
    ensures Owned(Push(m, f), ds)
    ensures forall x :: InRange(ds, x) ==> Frame(Push(m, f), x) == Frame(m, x)
  {
    var c, r := SetPage(m, f, Filled(1)), Push(m, f);
    SetPageOwned(m, ds, f, Filled(1));
    forall k | 0 <= k < |m.free| ensures m.free[k] != f { assert !Free(m, f); }
    forall x | InRange(ds, x) ensures SlotOk(r, x) && Frame(r, x) == Frame(m, x) {
      assert SlotOk(c, x) && Frame(c, x) != Some(f);
      FramePages(c, r, x);
      SetPageFrame(m, ds, f, Filled(1), x);
    }
    forall x, y | InRange(ds, x) && InRange(ds, y) ensures Apart(r, x, y) {
      assert Apart(c, x, y);
      FramePages(c, r, x);
      FramePages(c, r, y);
    }
  }

  /** All user pages of the spaces ds are as before, except pages lo .. hi of d. */
  ghost predicate SameElsewhere(m: Mem, r: Mem, ds: set<nat>, d: nat, lo: nat, hi: nat) {
    |r.pages| == |m.pages| &&
    forall x :: InRange(ds, x) && x.User? && !(x.d == d && lo <= x.v < hi) ==> SameUser(m, r, x)
  }

  lemma SameTwice(m: Mem, n: Mem, r: Mem, ds: set<nat>, d: nat, lo: nat, mid: nat, hi: nat)
    requires SameElsewhere(m, n, ds, d, lo, mid) && SameElsewhere(n, r, ds, d, mid, hi) && lo <= mid <= hi
    ensures SameElsewhere(m, r, ds, d, lo, hi)
  {
    forall x | InRange(ds, x) && x.User? && !(x.d == d && lo <= x.v < hi) ensures SameUser(m, r, x) {
      assert SameUser(m, n, x) && SameUser(n, r, x);
    }
  }

  /** Taking a frame and filling it. */
  function Take(m: Mem, p: Page): (r: Mem)
    requires m.free != [] && Top(m) < |m.pages|
  {
    SetPage(Pop(m), Top(m), p)
  }

  lemma TakeOk(m: Mem, ds: set<nat>, p: Page)
    requires Owned(m, ds) && m.free != []
    ensures Top(m) < |m.pages|
    ensures var r := Take(m, p);
      && Owned(r, ds) && Fresh(r, ds, Top(m)) && r.pages[Top(m)] == p && r.free == m.free[..|m.free| - 1]
      && (forall d, lo :: SameElsewhere(m, r, ds, d, lo, lo))
      && (forall x :: InRange(ds, x) ==> Frame(r, x) == Frame(m, x))
  {
    PopOwned(m, ds);
    var q, r := Pop(m), Take(m, p);
    SetPageOwned(q, ds, Top(m), p);
    forall x | InRange(ds, x) ensures Frame(r, x) == Frame(m, x) && (x.User? ==> SameUser(m, r, x)) {
      FramePages(m, q, x);
      SetPageFrame(q, ds, Top(m), p, x);
    }
  }

  datatype Step = NoFrame | NoTable(m: Mem) | Mapped(m: Mem)

  /** One round of allocuvm and copyuvm: kalloc a frame, fill it with p, and mappages
      it at v, which may need a frame for a page table too. */
  ghost function MapNew(m: Mem, ds: set<nat>, d: nat, v: nat, p: Page, fl: Flags): (r: Step)
    requires Owned(m, ds) && d in ds && v < USER_PAGES
  {
    if m.free == [] then NoFrame
    else
      TakeOk(m, ds, p);
      var e, m1 := Present(Top(m), fl), Take(m, p);
      assert InRange(ds, Dir(d)) && SlotOk(m1, Dir(d));
      if EntryAt(m1, d, v / ENTRIES).Present? then
        TableOfPage(m1, ds, d, v);
        Mapped(SetPte(m1, d, v, e))
      else if m1.free == [] then NoTable(m1)
      else
        TakeOk(m1, ds, EmptyTable());
        var t, m2 := Top(m1), Take(m1, EmptyTable());
        assert SlotOk(m2, Dir(d));
        SetEntryAt(m2, d, v / ENTRIES, Present(t, Flags(true, true)), d, v / ENTRIES);
        var m3 := AddTable(m2, d, v / ENTRIES, t);
        assert TableAt(m3, t);
        Mapped(SetPte(m3, d, v, e))
  }

  /** The directory of d lists tables as before, and one for entry i. */
  predicate TablesGrew(m: Mem, r: Mem, d: nat, i: nat) {
    forall j: nat :: j < ENTRIES ==> (EntryAt(r, d, j).Present? <==> EntryAt(m, d, j).Present? || j == i)
  }

  lemma SetPteOk(m: Mem, ds: set<nat>, d: nat, v: nat, e: Entry)
    requires HasTable(m, ds, d, v) && TableAt(m, EntryAt(m, d, v / ENTRIES).frame)
    ensures var r := SetPte(m, d, v, e);
      && Lookup(r, d, v) == e && r.free == m.free && SameElsewhere(m, r, ds, d, v, v + 1)
      && TablesGrew(m, r, d, v / ENTRIES)
      && forall f: nat :: f < |m.pages| && m.pages[f].Data? ==> r.pages[f] == m.pages[f]
  {
    var r, t := SetPte(m, d, v, e), EntryAt(m, d, v / ENTRIES).frame;
    assert InRange(ds, Tab(d, v / ENTRIES)) && InRange(ds, Dir(d)) && Apart(m, Tab(d, v / ENTRIES), Dir(d));
    forall j: nat | j < ENTRIES ensures EntryAt(r, d, j) == EntryAt(m, d, j) { SetEntryAt(m, t, v % ENTRIES, e, d, j); }
    SetEntryAt(m, t, v % ENTRIES, e, t, v % ENTRIES);
    forall x | InRange(ds, x) && x.User? && !(x.d == d && v <= x.v < v + 1) ensures SameUser(m, r, x) {
      SetPteFrame(m, ds, d, v, e, x);
    }
  }

  lemma AddTableOk(m: Mem, ds: set<nat>, d: nat, v: nat, t: nat)
    requires CanAddTable(m, ds, d, v / ENTRIES, t) && v < USER_PAGES
    ensures var r := AddTable(m, d, v / ENTRIES, t);
      && HasTable(r, ds, d, v) && TableAt(r, t) && EntryAt(r, d, v / ENTRIES).frame == t && Lookup(r, d, v) == Absent
      && r.free == m.free && TablesGrew(m, r, d, v / ENTRIES) && (forall lo :: SameElsewhere(m, r, ds, d, lo, lo))
      && forall f: nat :: f < |m.pages| && m.pages[f].Data? ==> r.pages[f] == m.pages[f]
  {
    var i := v / ENTRIES;
    var r, e := AddTable(m, d, i, t), Present(t, Flags(true, true));
    AddTableOwned(m, ds, d, i, t);
    forall j: nat | j < ENTRIES ensures EntryAt(r, d, j) == if j == i then e else EntryAt(m, d, j) { SetEntryAt(m, d, i, e, d, j); }
    assert Frame(m, Dir(d)) != Some(t) by { assert InRange(ds, Dir(d)); }
    SetEntryAt(m, d, i, e, t, v % ENTRIES);
    forall x | InRange(ds, x) && x.User? ensures SameUser(m, r, x) { AddTableFrame(m, ds, d, i, t, x); }
  }

  /** Mapping keeps a frame that was fresh before a table was added. */
  lemma FreshKept(m: Mem, r: Mem, ds: set<nat>, f: nat)
    requires Fresh(m, ds, f) && |r.pages| == |m.pages| && (forall g :: Free(r, g) ==> Free(m, g))
    requires forall x :: InRange(ds, x) ==> Frame(r, x) == Frame(m, x) || Frame(r, x) != Some(f)
    ensures Fresh(r, ds, f)
  {
    forall x | InRange(ds, x) ensures Frame(r, x) != Some(f) { assert Frame(m, x) != Some(f); }
  }

  function Cost(m: Mem, d: nat, v: nat): (n: nat) { if EntryAt(m, d, v / ENTRIES).Present? then 1 else 2 }

  /** The new page shows p, and nothing else that any process can see has changed. */
  ghost predicate MappedNew(m: Mem, r: Mem, ds: set<nat>, d: nat, v: nat, p: Page, fl: Flags) {
    && Owned(r, ds) && SameElsewhere(m, r, ds, d, v, v + 1) && TablesGrew(m, r, d, v / ENTRIES)
    && Cost(m, d, v) <= |m.free| && r.free == m.free[..|m.free| - Cost(m, d, v)]
    && Lookup(r, d, v) == Present(Top(m), fl) && Top(m) < |r.pages| && r.pages[Top(m)] == p
  }

  lemma MapNewSimple(m: Mem, ds: set<nat>, d: nat, v: nat, p: Page, fl: Flags)
    requires Owned(m, ds) && d in ds && v < USER_PAGES && Lookup(m, d, v) == Absent && p.Data? && m.free != []
    requires Cost(m, d, v) == 1
    ensures MapNew(m, ds, d, v, p, fl).Mapped? && MappedNew(m, MapNew(m, ds, d, v, p, fl).m, ds, d, v, p, fl)
  {
    TakeOk(m, ds, p);
    var m1 := Take(m, p);
    var x, y := User(d, v), Tab(d, v / ENTRIES);
    assert InRange(ds, y) && Frame(m1, y) == Frame(m, y);
    assert SameElsewhere(m, m1, ds, d, v, v);
    assert SameUser(m, m1, x) by { assert InRange(ds, x); }
    TableOfPage(m1, ds, d, v);
    MapOwned(m1, ds, d, v, Top(m), fl);
    SetPteOk(m1, ds, d, v, Present(Top(m), fl));
    var r := SetPte(m1, d, v, Present(Top(m), fl));
    SameTwice(m, m1, r, ds, d, v, v, v + 1);
    TakeTables(m, ds, d, p);
  }

  lemma TakeTables(m: Mem, ds: set<nat>, d: nat, p: Page)
    requires Owned(m, ds) && m.free != [] && d in ds && Top(m) < |m.pages|
    ensures forall j: nat :: j < ENTRIES ==> EntryAt(Take(m, p), d, j).Present? == EntryAt(m, d, j).Present?
  {
    TakeOk(m, ds, p);
    forall j: nat | j < ENTRIES ensures EntryAt(Take(m, p), d, j).Present? == EntryAt(m, d, j).Present? {
      assert InRange(ds, Tab(d, j));
    }
  }

  /** The two frames taken for a page and its table are ready for use. */
  lemma TakeTwice(m: Mem, ds: set<nat>, d: nat, v: nat, p: Page)
    requires Owned(m, ds) && d in ds && v < USER_PAGES && |m.free| >= 2 && Cost(m, d, v) == 2 && p.Data?
    ensures Top(m) < |m.pages|
    ensures var m1 := Take(m, p);
      && m1.free != [] && Top(m1) < |m1.pages| && Top(m1) != Top(m)
      && var m2 := Take(m1, EmptyTable());
         && CanAddTable(m2, ds, d, v / ENTRIES, Top(m1)) && Fresh(m2, ds, Top(m)) && m2.pages[Top(m)] == p
         && SameElsewhere(m, m2, ds, d, v, v) && m2.free == m.free[..|m.free| - 2]
         && forall j: nat :: j < ENTRIES ==> EntryAt(m2, d, j).Present? == EntryAt(m, d, j).Present?
  {
    TakeOk(m, ds, p);
    TakeTables(m, ds, d, p);
    var m1 := Take(m, p);
    assert Top(m1) == m.free[|m.free| - 2];
    TakeOk(m1, ds, EmptyTable());
    TakeTables(m1, ds, d, EmptyTable());
    var m2 := Take(m1, EmptyTable());
    FreshKept(m1, m2, ds, Top(m));
    assert SameElsewhere(m, m1, ds, d, v, v) && SameElsewhere(m1, m2, ds, d, v, v);
    SameTwice(m, m1, m2, ds, d, v, v, v);
    assert InRange(ds, Dir(d)) && SlotOk(m2, Dir(d));
  }

  lemma MapNewTable(m: Mem, ds: set<nat>, d: nat, v: nat, p: Page, fl: Flags)
    requires Owned(m, ds) && d in ds && v < USER_PAGES && Lookup(m, d, v) == Absent && p.Data? && |m.free| >= 2
    requires Cost(m, d, v) == 2
    ensures MapNew(m, ds, d, v, p, fl).Mapped? && MappedNew(m, MapNew(m, ds, d, v, p, fl).m, ds, d, v, p, fl)
  {
    TakeTwice(m, ds, d, v, p);
    var m1 := Take(m, p);
    var t, m2 := Top(m1), Take(m1, EmptyTable());
    AddTableOk(m2, ds, d, v, t);
    var m3 := AddTable(m2, d, v / ENTRIES, t);
    forall x | InRange(ds, x) ensures Frame(m3, x) == Frame(m2, x) || Frame(m3, x) != Some(Top(m)) {
      AddTableFrame(m2, ds, d, v / ENTRIES, t, x);
    }
    FreshKept(m2, m3, ds, Top(m));
    MapOwned(m3, ds, d, v, Top(m), fl);
    SetPteOk(m3, ds, d, v, Present(Top(m), fl));
    var r := SetPte(m3, d, v, Present(Top(m), fl));
    assert SameElsewhere(m2, m3, ds, d, v, v);
    SameTwice(m, m2, m3, ds, d, v, v, v);
    SameTwice(m, m3, r, ds, d, v, v, v + 1);
    assert MapNew(m, ds, d, v, p, fl) == Mapped(r) by {
      TakeTables(m, ds, d, p);
      TakeOk(m, ds, p);
    }
  }

  /** What a round does depends only on the number of free frames and on whether the
      page table exists. When only the table's frame is missing, the page's is lost. */
  lemma MapNewOk(m: Mem, ds: set<nat>, d: nat, v: nat, p: Page, fl: Flags)
    requires Owned(m, ds) && d in ds && v < USER_PAGES && Lookup(m, d, v) == Absent && p.Data?
    ensures var r := MapNew(m, ds, d, v, p, fl);
      && (r.NoFrame? <==> m.free == [])
      && (r.NoTable? <==> |m.free| == 1 && Cost(m, d, v) == 2)
      && (r.NoTable? ==> Owned(r.m, ds) && r.m.free == [] && SameElsewhere(m, r.m, ds, d, v, v) && Fresh(r.m, ds, Top(m)))
      && (r.Mapped? ==> MappedNew(m, r.m, ds, d, v, p, fl))
  {
    if m.free != [] {
      TakeOk(m, ds, p);
      TakeTables(m, ds, d, p);
      if Cost(m, d, v) == 1 { MapNewSimple(m, ds, d, v, p, fl); }
      else if |m.free| >= 2 { MapNewTable(m, ds, d, v, p, fl); }
      else { assert SameElsewhere(m, Take(m, p), ds, d, v, v); }
    }
  }

  // ----------------------------------------------------------------- allocuvm

  /** User memory is exactly pages 0 .. n. */
  ghost predicate Contiguous(m: Mem, d: nat, n: nat) {
    forall v :: 0 <= v < USER_PAGES ==> (Lookup(m, d, v).Present? <==> v < n)
  }

  /** Frames needed to map page u when the page before it has just been mapped. */
  function PageCost(m: Mem, d: nat, u: nat): (n: nat) {
    if u % ENTRIES == 0 && !EntryAt(m, d, u / ENTRIES).Present? then 2 else 1
  }

  function LaterNeed(m: Mem, d: nat, u: nat, w: nat): (n: nat)
    decreases w - u
  {
    if u >= w then 0 else PageCost(m, d, u) + LaterNeed(m, d, u + 1, w)
  }

  /** Frames needed to map pages v .. w. */
  function Need(m: Mem, d: nat, v: nat, w: nat): (n: nat)
    ensures v < w ==> n > 0
  {
    if v >= w then 0 else Cost(m, d, v) + LaterNeed(m, d, v + 1, w)
  }

  /** Frames for page u when mapping starts at page v. */
  function CostFrom(m: Mem, d: nat, v: nat, u: nat): (n: nat) { if u == v then Cost(m, d, v) else PageCost(m, d, u) }

  /** A table added for page v does not change the cost of later pages. */
  lemma {:induction false} LaterStable(m: Mem, r: Mem, d: nat, v: nat, u: nat, w: nat)
    requires TablesGrew(m, r, d, v / ENTRIES) && v < u && w <= USER_PAGES
    ensures LaterNeed(r, d, u, w) == LaterNeed(m, d, u, w)
    decreases w - u
  {
    if u < w {
      assert PageCost(r, d, u) == PageCost(m, d, u);
      LaterStable(m, r, d, v, u + 1, w);
    }
  }

  lemma CostNext(m: Mem, r: Mem, d: nat, v: nat, u: nat)
    requires TablesGrew(m, r, d, v / ENTRIES) && v < u < USER_PAGES
    ensures CostFrom(r, d, v + 1, u) == CostFrom(m, d, v, u)
  {
    if (v + 1) % ENTRIES != 0 { assert (v + 1) / ENTRIES == v / ENTRIES; }
  }

  lemma NeedNext(m: Mem, r: Mem, d: nat, v: nat, w: nat)
    requires TablesGrew(m, r, d, v / ENTRIES) && v < w <= USER_PAGES
    ensures Need(m, d, v, w) == Cost(m, d, v) + Need(r, d, v + 1, w)
  {
    if v + 1 < w {
      CostNext(m, r, d, v, v + 1);
      LaterStable(m, r, d, v, v + 2, w);
    }
  }

  /** ok: the loop came to its end. leaked: a frame was taken and not mapped, because
      its page table could not be had and mappages' result is ignored. top: the first
      page not mapped. */
  datatype Grown = Grown(ok: bool, leaked: bool, top: nat, m: Mem)

  ghost predicate Clear(m: Mem, d: nat, v: nat, w: nat) { forall u :: v <= u < w ==> Lookup(m, d, u) == Absent }

  lemma ClearKept(m: Mem, r: Mem, ds: set<nat>, d: nat, v: nat, u: nat, w: nat)
    requires Clear(m, d, v, w) && d in ds && v <= u <= w <= USER_PAGES && SameElsewhere(m, r, ds, d, v, u)
    ensures Clear(r, d, u, w)
  {
    forall k | u <= k < w ensures Lookup(r, d, k) == Absent {
      assert InRange(ds, User(d, k)) && SameUser(m, r, User(d, k));
    }
  }

  /** allocuvm's loop over pages v .. w. */
  ghost function Grow(m: Mem, ds: set<nat>, d: nat, v: nat, w: nat): (r: Grown)
    requires Owned(m, ds) && d in ds && v <= w <= USER_PAGES && Clear(m, d, v, w)
    decreases w - v
  {
    if v == w then Grown(true, false, v, m)
    else
      MapNewOk(m, ds, d, v, Filled(0), Flags(true, true));
      match MapNew(m, ds, d, v, Filled(0), Flags(true, true))
      case NoFrame => Grown(false, false, v, m)
      case NoTable(n) =>
        ClearKept(m, n, ds, d, v, v, w);
        var g := Grow(n, ds, d, v + 1, w);
        Grown(g.ok, true, v, g.m)
      case Mapped(n) =>
        ClearKept(m, n, ds, d, v, v + 1, w);
        Grow(n, ds, d, v + 1, w)
  }

  /** Page u was given a frame from the old free list, zeroed, for reading and writing. */
  ghost predicate NewPage(m: Mem, r: Mem, d: nat, u: nat) {
    var e := Lookup(r, d, u);
    e.Present? && e.flags == Flags(true, true) && Free(m, e.frame) && e.frame < |r.pages| && r.pages[e.frame] == Filled(0)
  }

  ghost predicate GrownOk(m: Mem, g: Grown, ds: set<nat>, d: nat, v: nat, w: nat) {
    && Owned(g.m, ds) && SameElsewhere(m, g.m, ds, d, v, w)
    && v <= g.top <= w && Clear(g.m, d, g.top, w)
    && forall u :: v <= u < g.top ==> NewPage(m, g.m, d, u)
  }

  lemma ContiguousClear(m: Mem, d: nat, v: nat, w: nat)
    requires Contiguous(m, d, v) && w <= USER_PAGES
    ensures Clear(m, d, v, w)
  {
    forall u | v <= u < w ensures Lookup(m, d, u) == Absent { assert !Lookup(m, d, u).Present?; }
  }

  lemma MappedContiguous(m: Mem, r: Mem, ds: set<nat>, d: nat, v: nat)
    requires Contiguous(m, d, v) && d in ds && SameElsewhere(m, r, ds, d, v, v + 1) && Lookup(r, d, v).Present?
    ensures Contiguous(r, d, v + 1)
  {
    forall u | 0 <= u < USER_PAGES ensures Lookup(r, d, u).Present? <==> u < v + 1 {
      if u != v { assert InRange(ds, User(d, u)) && SameUser(m, r, User(d, u)); }
    }
  }

  lemma SameContiguous(m: Mem, r: Mem, ds: set<nat>, d: nat, n: nat)
    requires Contiguous(m, d, n) && d in ds && SameElsewhere(m, r, ds, d, n, n)
    ensures Contiguous(r, d, n)
  {
    forall u | 0 <= u < USER_PAGES ensures Lookup(r, d, u).Present? <==> u < n {
      assert InRange(ds, User(d, u)) && SameUser(m, r, User(d, u));
    }
  }

  lemma SameWider(m: Mem, r: Mem, ds: set<nat>, d: nat, lo: nat, hi: nat, w: nat)
    requires SameElsewhere(m, r, ds, d, lo, hi) && hi <= w
    ensures SameElsewhere(m, r, ds, d, lo, w)
  {
  }

  lemma EmptyGrow(m: Mem, ds: set<nat>, d: nat, v: nat, w: nat)
    requires Owned(m, ds) && d in ds && v <= w <= USER_PAGES && Clear(m, d, v, w) && m.free == []
    ensures Grow(m, ds, d, v, w) == Grown(v == w, false, v, m)
  {
  }

  /** The first page mapped, the rest handled by the later rounds. */
  lemma GrownMore(m: Mem, n: Mem, g: Grown, ds: set<nat>, d: nat, v: nat, w: nat)
    requires MappedNew(m, n, ds, d, v, Filled(0), Flags(true, true)) && GrownOk(n, g, ds, d, v + 1, w)
    requires d in ds && v < w <= USER_PAGES
    ensures GrownOk(m, g, ds, d, v, w)
  {
    SameTwice(m, n, g.m, ds, d, v, v + 1, w);
    assert InRange(ds, User(d, v)) && SameUser(n, g.m, User(d, v));
    assert Free(m, Top(m)) by { assert m.free[|m.free| - 1] == Top(m); }
    forall u | v <= u < g.top ensures NewPage(m, g.m, d, u) {
      if u > v {
        assert NewPage(n, g.m, d, u);
        var k :| 0 <= k < |n.free| && n.free[k] == Lookup(g.m, d, u).frame;
        assert m.free[k] == n.free[k];
      }
    }
  }

  /** What allocuvm's loop does is decided by the number of free frames: all pages are
      mapped exactly if there are enough. If just the last page's table is missing, the
      loop still reports success, with the last page unmapped. */
  ghost predicate Exact(m: Mem, g: Grown, ds: set<nat>, d: nat, v: nat, w: nat)
    requires v <= w
  {
    var n := Need(m, d, v, w);
    && GrownOk(m, g, ds, d, v, w)
    && (g.top == w <==> |m.free| >= n)
    && (g.top == w ==> g.ok && !g.leaked && |g.m.free| == |m.free| - n)
    && (g.ok <==> |m.free| >= n || (|m.free| == n - 1 && v < w && CostFrom(m, d, v, w - 1) == 2))
    && (g.ok && g.top < w ==> g.top == w - 1 && g.m.free == [])
  }

  lemma ExactMore(m: Mem, n: Mem, g: Grown, ds: set<nat>, d: nat, v: nat, w: nat)
    requires d in ds && v < w <= USER_PAGES
    requires MappedNew(m, n, ds, d, v, Filled(0), Flags(true, true)) && Exact(n, g, ds, d, v + 1, w)
    ensures Exact(m, g, ds, d, v, w)
  {
    NeedNext(m, n, d, v, w);
    GrownMore(m, n, g, ds, d, v, w);
    if v + 1 < w { CostNext(m, n, d, v, w - 1); }
  }

  lemma ExactLeak(m: Mem, n: Mem, ds: set<nat>, d: nat, v: nat, w: nat)
    requires Owned(n, ds) && n.free == [] && SameElsewhere(m, n, ds, d, v, v) && Clear(m, d, v, w)
    requires d in ds && v < w <= USER_PAGES && |m.free| == 1 && Cost(m, d, v) == 2
    ensures Exact(m, Grown(v + 1 == w, true, v, n), ds, d, v, w)
  {
    ClearKept(m, n, ds, d, v, v, w);
    SameWider(m, n, ds, d, v, v, w);
  }

  lemma {:induction false} GrowExact(m: Mem, ds: set<nat>, d: nat, v: nat, w: nat)
    requires Owned(m, ds) && d in ds && v <= w <= USER_PAGES && Clear(m, d, v, w)
    ensures Exact(m, Grow(m, ds, d, v, w), ds, d, v, w)
    decreases w - v
  {
    if v < w {
      MapNewOk(m, ds, d, v, Filled(0), Flags(true, true));
      match MapNew(m, ds, d, v, Filled(0), Flags(true, true))
      case NoFrame => NeedLast(m, d, v, w);
      case NoTable(n) =>
        ClearKept(m, n, ds, d, v, v, w);
        EmptyGrow(n, ds, d, v + 1, w);
        ExactLeak(m, n, ds, d, v, w);
      case Mapped(n) =>
        ClearKept(m, n, ds, d, v, v + 1, w);
        GrowExact(n, ds, d, v + 1, w);
        ExactMore(m, n, Grow(n, ds, d, v + 1, w), ds, d, v, w);
    }
  }

  lemma NeedLast(m: Mem, d: nat, v: nat, w: nat)
    requires v < w
    ensures Need(m, d, v, w) >= CostFrom(m, d, v, w - 1)
  {
    if v + 1 < w { LaterLast(m, d, v + 1, w); }
  }

  lemma {:induction false} LaterLast(m: Mem, d: nat, u: nat, w: nat)
    requires u < w
    ensures LaterNeed(m, d, u, w) >= PageCost(m, d, w - 1)
    decreases w - u
  {
    if u + 1 < w { LaterLast(m, d, u + 1, w); }
  }

  /** The frames run out between a page and its new table. */
  predicate ShortAt(m: Mem, d: nat, v: nat, u: nat, frames: nat) {
    frames == Need(m, d, v, u) + 1 && CostFrom(m, d, v, u) == 2
  }

  lemma ShortLater(m: Mem, n: Mem, d: nat, v: nat, u: nat)
    requires TablesGrew(m, n, d, v / ENTRIES) && v < u < USER_PAGES && Cost(m, d, v) + |n.free| == |m.free|
    ensures ShortAt(n, d, v + 1, u, |n.free|) == ShortAt(m, d, v, u, |m.free|)
  {
    NeedNext(m, n, d, v, u);
    CostNext(m, n, d, v, u);
  }

  ghost predicate RunsShort(m: Mem, d: nat, v: nat, w: nat) {
    exists u :: v <= u < w && ShortAt(m, d, v, u, |m.free|)
  }

  lemma RunsShortLater(m: Mem, n: Mem, d: nat, v: nat, w: nat)
    requires TablesGrew(m, n, d, v / ENTRIES) && v < w <= USER_PAGES && Cost(m, d, v) + |n.free| == |m.free|
    ensures RunsShort(n, d, v + 1, w) == RunsShort(m, d, v, w)
  {
    if RunsShort(n, d, v + 1, w) {
      var u :| v + 1 <= u < w && ShortAt(n, d, v + 1, u, |n.free|);
      ShortLater(m, n, d, v, u);
    }
    if RunsShort(m, d, v, w) {
      var u :| v <= u < w && ShortAt(m, d, v, u, |m.free|);
      if u > v { ShortLater(m, n, d, v, u); }
    }
  }

  /** A frame is lost exactly when the supply runs out between a page and its table. */
  lemma {:induction false} LeakIff(m: Mem, ds: set<nat>, d: nat, v: nat, w: nat)
    requires Owned(m, ds) && d in ds && v <= w <= USER_PAGES && Clear(m, d, v, w)
    ensures Grow(m, ds, d, v, w).leaked <==> RunsShort(m, d, v, w)
    decreases w - v
  {
    hide Owned, Accounted, Frame, Lookup, SameUser;
    if v < w {
      var p, fl := Filled(0), Flags(true, true);
      MapNewOk(m, ds, d, v, p, fl);
      var s := MapNew(m, ds, d, v, p, fl);
      if s.NoTable? {
        assert ShortAt(m, d, v, v, |m.free|);
      } else if s.Mapped? {
        ClearKept(m, s.m, ds, d, v, v + 1, w);
        LeakIff(s.m, ds, d, v + 1, w);
        RunsShortLater(m, s.m, d, v, w);
      }
    }
  }

  // --------------------------------------------------------------- deallocuvm

  ghost predicate Mapped1(m: Mem, ds: set<nat>, d: nat, v: nat) {
    HasTable(m, ds, d, v) && Lookup(m, d, v).Present?
  }

  lemma MappedUser(m: Mem, ds: set<nat>, d: nat, v: nat)
    requires Mapped1(m, ds, d, v)
    ensures TableAt(m, EntryAt(m, d, v / ENTRIES).frame) && Lookup(m, d, v).frame < |m.pages|
    ensures m.pages[Lookup(m, d, v).frame].Data?
  {
    TableOfPage(m, ds, d, v);
    assert InRange(ds, User(d, v)) && SlotOk(m, User(d, v));
  }

  /** Unmapping a page returns its frame and changes nothing else. */
  lemma UnmapOk(m: Mem, ds: set<nat>, d: nat, v: nat)
    requires Mapped1(m, ds, d, v) && TableAt(m, EntryAt(m, d, v / ENTRIES).frame) && Lookup(m, d, v).frame < |m.pages|
    ensures var r := Unmap(m, d, v);
      && Owned(r, ds) && Lookup(r, d, v) == Absent && SameElsewhere(m, r, ds, d, v, v + 1)
      && r.free == m.free + [Lookup(m, d, v).frame] && TablesGrew(m, r, d, v / ENTRIES)
  {
    var f, c := Lookup(m, d, v).frame, SetPte(m, d, v, Absent);
    var r, x := Push(c, f), User(d, v);
    SetPteOk(m, ds, d, v, Absent);
    ClearedOwned(m, ds, d, v);
    PushOwned(c, ds, f);
    assert InRange(ds, x);
    forall y | InRange(ds, y) && y.User? && !(y.d == d && v <= y.v < v + 1) ensures SameUser(m, r, y) {
      assert SameUser(m, c, y) && Apart(m, x, y);
      PushKeeps(c, ds, f, y);
    }
    PushKeeps(c, ds, f, x);
    forall j: nat | j < ENTRIES ensures EntryAt(r, d, j).Present? == EntryAt(c, d, j).Present? {
      assert InRange(ds, Tab(d, j)) && Frame(r, Tab(d, j)) == Frame(c, Tab(d, j));
    }
  }

  lemma ClearedOwned(m: Mem, ds: set<nat>, d: nat, v: nat)
    requires Mapped1(m, ds, d, v) && TableAt(m, EntryAt(m, d, v / ENTRIES).frame) && Lookup(m, d, v).frame < |m.pages|
    ensures Owned(SetPte(m, d, v, Absent), ds) && Fresh(SetPte(m, d, v, Absent), ds, Lookup(m, d, v).frame)
  {
    var f, c, y := Lookup(m, d, v).frame, SetPte(m, d, v, Absent), Tab(d, v / ENTRIES);
    assert InRange(ds, User(d, v)) && SlotOk(m, User(d, v)) && InRange(ds, y);
    forall x | InRange(ds, x) ensures SlotOk(c, x) && Frame(c, x) != Some(f) {
      SetPteFrame(m, ds, d, v, Absent, x);
      assert SlotOk(m, x) && Apart(m, x, y) && Apart(m, x, User(d, v));
    }
    forall x, z | InRange(ds, x) && InRange(ds, z) ensures Apart(c, x, z) {
      assert Apart(m, x, z);
      SetPteFrame(m, ds, d, v, Absent, x);
      SetPteFrame(m, ds, d, v, Absent, z);
    }
  }

  lemma PushKeeps(m: Mem, ds: set<nat>, f: nat, x: Slot)
    requires Owned(m, ds) && Fresh(m, ds, f) && InRange(ds, x) && x.User?
    ensures SameUser(m, Push(m, f), x)
  {
    var c := SetPage(m, f, Filled(1));
    SetPageFrame(m, ds, f, Filled(1), x);
    assert Push(m, f).pages == c.pages;
  }

  /** deallocuvm's loop over pages v .. w. Where a page table is missing it steps on by
      a whole table's worth of pages, from wherever in the table it is. */
  ghost function Shrink(m: Mem, ds: set<nat>, d: nat, v: nat, w: nat): (r: Mem)
    requires Owned(m, ds) && d in ds && w <= USER_PAGES
    decreases w - v
  {
    if v >= w then m
    else if !EntryAt(m, d, v / ENTRIES).Present? then Shrink(m, ds, d, v + ENTRIES, w)
    else if Lookup(m, d, v).Present? then
      MappedUser(m, ds, d, v);
      UnmapOk(m, ds, d, v);
      Shrink(Unmap(m, d, v), ds, d, v + 1, w)
    else Shrink(m, ds, d, v + 1, w)
  }

  /** Page u is mapped but stepped over: no page table exists from the start up to its
      own, and it lies before the place where the steps land in its table. */
  ghost predicate Missed(m: Mem, d: nat, v: nat, w: nat, u: nat) {
    && v <= u < w && Lookup(m, d, u).Present? && u % ENTRIES < v % ENTRIES
    && forall j :: v / ENTRIES <= j < u / ENTRIES ==> EntryAt(m, d, j) == Absent
  }

  lemma MissedSkip(m: Mem, d: nat, v: nat, w: nat, u: nat)
    requires EntryAt(m, d, v / ENTRIES) == Absent
    ensures u >= v + ENTRIES ==> Missed(m, d, v + ENTRIES, w, u) == Missed(m, d, v, w, u)
    ensures v <= u < v + ENTRIES && u < w ==> Missed(m, d, v, w, u) == Lookup(m, d, u).Present?
  {
    assert (v + ENTRIES) / ENTRIES == v / ENTRIES + 1 && (v + ENTRIES) % ENTRIES == v % ENTRIES;
  }

  lemma MissedNone(m: Mem, r: Mem, d: nat, v: nat, w: nat, u: nat)
    requires EntryAt(m, d, v / ENTRIES).Present? && TablesGrew(m, r, d, v / ENTRIES) && v / ENTRIES < ENTRIES
    ensures !Missed(m, d, v, w, u) && !Missed(r, d, v + 1, w, u)
  {
    if (v + 1) % ENTRIES != 0 { assert (v + 1) / ENTRIES == v / ENTRIES; }
    assert EntryAt(r, d, v / ENTRIES).Present?;
  }

  /** What deallocuvm leaves: of pages v .. w exactly the missed ones stay mapped, and
      nothing outside changes. */
  ghost predicate Shrunk(m: Mem, r: Mem, ds: set<nat>, d: nat, v: nat, w: nat) {
    && Owned(r, ds) && SameElsewhere(m, r, ds, d, v, w)
    && forall u :: v <= u < w ==>
         if Missed(m, d, v, w, u) then SameUser(m, r, User(d, u)) else Lookup(r, d, u) == Absent
  }

  lemma SkipShrunk(m: Mem, r: Mem, ds: set<nat>, d: nat, v: nat, w: nat)
    requires EntryAt(m, d, v / ENTRIES) == Absent && Shrunk(m, r, ds, d, v + ENTRIES, w) && d in ds && v < w <= USER_PAGES
    ensures Shrunk(m, r, ds, d, v, w)
  {
    forall u | v <= u < w ensures if Missed(m, d, v, w, u) then SameUser(m, r, User(d, u)) else Lookup(r, d, u) == Absent {
      MissedSkip(m, d, v, w, u);
      if u < v + ENTRIES { assert InRange(ds, User(d, u)) && SameUser(m, r, User(d, u)); }
    }
    forall x | InRange(ds, x) && x.User? && !(x.d == d && v <= x.v < w) ensures SameUser(m, r, x) {}
  }

  lemma StepShrunk(m: Mem, n: Mem, r: Mem, ds: set<nat>, d: nat, v: nat, w: nat)
    requires EntryAt(m, d, v / ENTRIES).Present? && TablesGrew(m, n, d, v / ENTRIES) && Lookup(n, d, v) == Absent
    requires SameElsewhere(m, n, ds, d, v, v + 1) && Shrunk(n, r, ds, d, v + 1, w) && d in ds && v < w <= USER_PAGES
    ensures Shrunk(m, r, ds, d, v, w)
  {
    SameTwice(m, n, r, ds, d, v, v + 1, w);
    forall u | v <= u < w ensures !Missed(m, d, v, w, u) && Lookup(r, d, u) == Absent {
      MissedNone(m, n, d, v, w, u);
      if u == v { assert InRange(ds, User(d, v)) && SameUser(n, r, User(d, v)); }
    }
  }

  lemma {:induction false} ShrinkExact(m: Mem, ds: set<nat>, d: nat, v: nat, w: nat)
    requires Owned(m, ds) && d in ds && w <= USER_PAGES
    ensures Shrunk(m, Shrink(m, ds, d, v, w), ds, d, v, w)
    decreases w - v
  {
    if v >= w {
    } else if !EntryAt(m, d, v / ENTRIES).Present? {
      ShrinkExact(m, ds, d, v + ENTRIES, w);
      SkipShrunk(m, Shrink(m, ds, d, v + ENTRIES, w), ds, d, v, w);
    } else {
      var n := m;
      if Lookup(m, d, v).Present? {
        MappedUser(m, ds, d, v);
        UnmapOk(m, ds, d, v);
        n := Unmap(m, d, v);
      }
      ShrinkExact(n, ds, d, v + 1, w);
      StepShrunk(m, n, Shrink(n, ds, d, v + 1, w), ds, d, v, w);
    }
  }

  /** deallocuvm unmaps all of pages v .. w exactly if none of them is missed. */
  lemma ClearsIff(m: Mem, ds: set<nat>, d: nat, v: nat, w: nat)
    requires Owned(m, ds) && d in ds && w <= USER_PAGES
    ensures Clear(Shrink(m, ds, d, v, w), d, v, w) <==> forall u :: v <= u < w ==> !Missed(m, d, v, w, u)
  {
    ShrinkExact(m, ds, d, v, w);
    var r := Shrink(m, ds, d, v, w);
    if Clear(r, d, v, w) {
      forall u | v <= u < w ensures !Missed(m, d, v, w, u) { assert Lookup(r, d, u) == Absent; }
    }
  }

  /** Only page 1024 is mapped; asked to unmap pages 1 .. 2048, deallocuvm steps from
      page 1 to page 1025 and leaves it mapped. */
  lemma StepsOver() returns (m: Mem)
    ensures Owned(m, {0}) && Missed(m, 0, 1, 2048, 1024)
    ensures Lookup(Shrink(m, {0}, 0, 1, 2048), 0, 1024).Present?
  {
    var dir := Table(seq(ENTRIES, i => if i == 1 then Present(1, Flags(true, true)) else Absent));
    var tab := Table(seq(ENTRIES, i => if i == 0 then Present(2, Flags(true, true)) else Absent));
    m := Mem([], [dir, tab, Filled(0)]);
    forall x | InRange({0}, x)
      ensures Frame(m, x) == (if x == Dir(0) then Some(0) else if x == Tab(0, 1) then Some(1) else if x == User(0, 1024) then Some(2) else None)
    {
      if x.User? { assert x.v == ENTRIES * (x.v / ENTRIES) + x.v % ENTRIES; }
    }
    forall x, y | InRange({0}, x) && InRange({0}, y) ensures Apart(m, x, y) {}
    ShrinkExact(m, {0}, 0, 1, 2048);
    assert SameUser(m, Shrink(m, {0}, 0, 1, 2048), User(0, 1024));
  }

  /** With contiguous user memory nothing is missed. */
  lemma ContiguousMissesNone(m: Mem, d: nat, n: nat, v: nat, w: nat, u: nat)
    requires Contiguous(m, d, n) && w <= USER_PAGES
    ensures !Missed(m, d, v, w, u)
  {
    if v <= u < w && Lookup(m, d, u).Present? {
      assert u < n && Lookup(m, d, v).Present?;
      assert EntryAt(m, d, v / ENTRIES).Present?;
      if u / ENTRIES == v / ENTRIES { assert u % ENTRIES >= v % ENTRIES; }
    }
  }

  /** Shrinking contiguous memory leaves it contiguous, up to the new size. */
  lemma ShrinkContiguous(m: Mem, ds: set<nat>, d: nat, n: nat, v: nat, w: nat)
    requires Owned(m, ds) && d in ds && w <= USER_PAGES && Contiguous(m, d, n) && n <= w
    ensures Contiguous(Shrink(m, ds, d, v, w), d, if n < v then n else v)
  {
    ShrinkExact(m, ds, d, v, w);
    var r := Shrink(m, ds, d, v, w);
    forall u | 0 <= u < USER_PAGES ensures Lookup(r, d, u).Present? <==> u < (if n < v then n else v) {
      ContiguousMissesNone(m, d, n, v, w, u);
      assert Lookup(m, d, u).Present? <==> u < n;
      assert InRange(ds, User(d, u));
      if !(v <= u < w) { assert SameUser(m, r, User(d, u)); }
    }
  }

  // -------------------------------------------------------- no frame is lost

  ghost predicate Used(m: Mem, ds: set<nat>, f: nat) { exists x :: InRange(ds, x) && Frame(m, x) == Some(f) }

  /** Frame f is free or belongs to one of the spaces. */
  ghost predicate Accounted(m: Mem, ds: set<nat>, f: nat) { Free(m, f) || Used(m, ds, f) }

  lemma TakeAccounted(m: Mem, ds: set<nat>, p: Page, f: nat)
    requires Owned(m, ds) && m.free != [] && Top(m) < |m.pages| && Accounted(m, ds, f) && f != Top(m)
    ensures Accounted(Take(m, p), ds, f)
  {
    TakeOk(m, ds, p);
    if Free(m, f) {
      var k :| 0 <= k < |m.free| && m.free[k] == f;
      assert Take(m, p).free[k] == f;
    } else {
      var x :| InRange(ds, x) && Frame(m, x) == Some(f);
      assert Frame(Take(m, p), x) == Some(f);
    }
  }

  lemma AddTableAccounted(m: Mem, ds: set<nat>, d: nat, i: nat, t: nat, f: nat)
    requires CanAddTable(m, ds, d, i, t) && (Accounted(m, ds, f) || f == t)
    ensures Accounted(AddTable(m, d, i, t), ds, f)
  {
    var r := AddTable(m, d, i, t);
    if Free(m, f) {
      assert Free(r, f);
    } else if f == t {
      AddTableFrame(m, ds, d, i, t, Tab(d, i));
      assert InRange(ds, Tab(d, i));
    } else {
      var x :| InRange(ds, x) && Frame(m, x) == Some(f);
      AddTableFrame(m, ds, d, i, t, x);
      assert Frame(r, x) == Some(f);
    }
  }

  lemma MapAccounted(m: Mem, ds: set<nat>, d: nat, v: nat, e: Entry, f: nat)
    requires HasTable(m, ds, d, v) && TableAt(m, EntryAt(m, d, v / ENTRIES).frame) && Lookup(m, d, v) == Absent && e.Present?
    requires Accounted(m, ds, f) || f == e.frame
    ensures Accounted(SetPte(m, d, v, e), ds, f)
  {
    var r := SetPte(m, d, v, e);
    if Free(m, f) {
      assert Free(r, f);
    } else if f == e.frame {
      SetPteFrame(m, ds, d, v, e, User(d, v));
      assert InRange(ds, User(d, v));
    } else {
      var x :| InRange(ds, x) && Frame(m, x) == Some(f);
      SetPteFrame(m, ds, d, v, e, x);
      assert Frame(r, x) == Some(f);
    }
  }

  /** A round that maps a page loses no frame; one that fails for want of a table loses
      the page's frame and no other. */
  lemma MapNewAccounted(m: Mem, ds: set<nat>, d: nat, v: nat, p: Page, fl: Flags, f: nat)
    requires Owned(m, ds) && d in ds && v < USER_PAGES && Lookup(m, d, v) == Absent && p.Data? && Accounted(m, ds, f)
    ensures var r := MapNew(m, ds, d, v, p, fl);
      (r.Mapped? ==> Accounted(r.m, ds, f)) && (r.NoTable? ==> (Accounted(r.m, ds, f) <==> f != Top(m)))
  {
    if m.free != [] {
      TakeOk(m, ds, p);
      TakeTables(m, ds, d, p);
      var m1, e := Take(m, p), Present(Top(m), fl);
      if f != Top(m) { TakeAccounted(m, ds, p, f); }
      assert InRange(ds, User(d, v)) && SameElsewhere(m, m1, ds, d, v, v) && SameUser(m, m1, User(d, v));
      if Cost(m, d, v) == 1 {
        TableOfPage(m1, ds, d, v);
        MapAccounted(m1, ds, d, v, e, f);
      } else if |m.free| >= 2 {
        TakeTwice(m, ds, d, v, p);
        var t, m2 := Top(m1), Take(m1, EmptyTable());
        if f != Top(m) && f != t { TakeAccounted(m1, ds, EmptyTable(), f); }
        AddTableOk(m2, ds, d, v, t);
        if f != Top(m) { AddTableAccounted(m2, ds, d, v / ENTRIES, t, f); }
        MapAccounted(AddTable(m2, d, v / ENTRIES, t), ds, d, v, e, f);
      }
    }
  }

  ghost predicate NothingLost(m: Mem, r: Mem, ds: set<nat>, es: set<nat>) {
    forall f: nat :: Accounted(m, ds, f) ==> Accounted(r, es, f)
  }

  lemma MapNewKeeps(m: Mem, ds: set<nat>, d: nat, v: nat, p: Page, fl: Flags)
    requires Owned(m, ds) && d in ds && v < USER_PAGES && Lookup(m, d, v) == Absent && p.Data?
    ensures var r := MapNew(m, ds, d, v, p, fl); r.Mapped? ==> NothingLost(m, r.m, ds, ds)
  {
    forall f: nat | Accounted(m, ds, f) ensures MapNew(m, ds, d, v, p, fl).Mapped? ==> Accounted(MapNew(m, ds, d, v, p, fl).m, ds, f) {
      MapNewAccounted(m, ds, d, v, p, fl, f);
    }
  }

  /** allocuvm's loop loses no frame unless it leaks one ... */
  lemma {:induction false} GrowKeeps(m: Mem, ds: set<nat>, d: nat, v: nat, w: nat)
    requires Owned(m, ds) && d in ds && v <= w <= USER_PAGES && Clear(m, d, v, w) && !Grow(m, ds, d, v, w).leaked
    ensures NothingLost(m, Grow(m, ds, d, v, w).m, ds, ds)
    decreases w - v
  {
    if v < w {
      MapNewOk(m, ds, d, v, Filled(0), Flags(true, true));
      var s := MapNew(m, ds, d, v, Filled(0), Flags(true, true));
      if s.Mapped? {
        ClearKept(m, s.m, ds, d, v, v + 1, w);
        GrowKeeps(s.m, ds, d, v + 1, w);
        MapNewKeeps(m, ds, d, v, Filled(0), Flags(true, true));
      }
    }
  }

  /** ... and then it does lose one. */
  lemma {:induction false} GrowLoses(m: Mem, ds: set<nat>, d: nat, v: nat, w: nat) returns (f: nat)
    requires Owned(m, ds) && d in ds && v <= w <= USER_PAGES && Clear(m, d, v, w) && Grow(m, ds, d, v, w).leaked
    ensures Free(m, f) && !Accounted(Grow(m, ds, d, v, w).m, ds, f)
    decreases w - v
  {
    MapNewOk(m, ds, d, v, Filled(0), Flags(true, true));
    var s := MapNew(m, ds, d, v, Filled(0), Flags(true, true));
    if s.NoTable? {
      ClearKept(m, s.m, ds, d, v, v, w);
      EmptyGrow(s.m, ds, d, v + 1, w);
      f := Top(m);
      assert m.free[|m.free| - 1] == f;
      MapNewAccounted(m, ds, d, v, Filled(0), Flags(true, true), f);
    } else {
      ClearKept(m, s.m, ds, d, v, v + 1, w);
      f := GrowLoses(s.m, ds, d, v + 1, w);
      var k :| 0 <= k < |s.m.free| && s.m.free[k] == f;
      assert m.free[k] == f;
    }
  }

  lemma UnmapAccounted(m: Mem, ds: set<nat>, d: nat, v: nat, f: nat)
    requires Mapped1(m, ds, d, v) && TableAt(m, EntryAt(m, d, v / ENTRIES).frame) && Lookup(m, d, v).frame < |m.pages|
    requires Accounted(m, ds, f)
    ensures Accounted(Unmap(m, d, v), ds, f) && (f == Lookup(m, d, v).frame ==> Free(Unmap(m, d, v), f))
  {
    var r, g, c := Unmap(m, d, v), Lookup(m, d, v).frame, SetPte(m, d, v, Absent);
    UnmapOk(m, ds, d, v);
    if f == g {
      assert r.free[|m.free|] == f;
    } else if Free(m, f) {
      var k :| 0 <= k < |m.free| && m.free[k] == f;
      assert r.free[k] == f;
    } else {
      var x :| InRange(ds, x) && Frame(m, x) == Some(f);
      SetPteFrame(m, ds, d, v, Absent, x);
      ClearedOwned(m, ds, d, v);
      PushOwned(c, ds, g);
      assert Frame(r, x) == Some(f);
    }
  }

  /** deallocuvm loses no frame, and every page it unmaps gives its frame back. */
  lemma {:induction false} ShrinkKeeps(m: Mem, ds: set<nat>, d: nat, v: nat, w: nat)
    requires Owned(m, ds) && d in ds && w <= USER_PAGES
    ensures NothingLost(m, Shrink(m, ds, d, v, w), ds, ds) && forall f: nat :: Free(m, f) ==> Free(Shrink(m, ds, d, v, w), f)
    decreases w - v
  {
    if v >= w {
    } else if !EntryAt(m, d, v / ENTRIES).Present? {
      ShrinkKeeps(m, ds, d, v + ENTRIES, w);
    } else if !Lookup(m, d, v).Present? {
      ShrinkKeeps(m, ds, d, v + 1, w);
    } else {
      MappedUser(m, ds, d, v);
      UnmapOk(m, ds, d, v);
      var n := Unmap(m, d, v);
      ShrinkKeeps(n, ds, d, v + 1, w);
      forall f: nat | Accounted(m, ds, f) ensures Accounted(n, ds, f) { UnmapAccounted(m, ds, d, v, f); }
      forall f: nat | Free(m, f) ensures Free(n, f) {
        var k :| 0 <= k < |m.free| && m.free[k] == f;
        assert n.free[k] == f;
      }
    }
  }

  lemma UnmapBack(m: Mem, ds: set<nat>, d: nat, v: nat, f: nat)
    requires Mapped1(m, ds, d, v) && TableAt(m, EntryAt(m, d, v / ENTRIES).frame) && Lookup(m, d, v).frame < |m.pages|
    requires Accounted(Unmap(m, d, v), ds, f)
    ensures Accounted(m, ds, f)
  {
    var r, g, c := Unmap(m, d, v), Lookup(m, d, v).frame, SetPte(m, d, v, Absent);
    assert InRange(ds, User(d, v)) && Frame(m, User(d, v)) == Some(g);
    if Free(r, f) {
      var k :| 0 <= k < |r.free| && r.free[k] == f;
      if k < |m.free| { assert m.free[k] == f; }
    } else {
      var x :| InRange(ds, x) && Frame(r, x) == Some(f);
      SetPteFrame(m, ds, d, v, Absent, x);
      ClearedOwned(m, ds, d, v);
      PushOwned(c, ds, g);
      assert Frame(m, x) == Some(f);
    }
  }

  lemma {:induction false} ShrinkBack(m: Mem, ds: set<nat>, d: nat, v: nat, w: nat, f: nat)
    requires Owned(m, ds) && d in ds && w <= USER_PAGES && Accounted(Shrink(m, ds, d, v, w), ds, f)
    ensures Accounted(m, ds, f)
    decreases w - v
  {
    if v >= w {
    } else if !EntryAt(m, d, v / ENTRIES).Present? {
      ShrinkBack(m, ds, d, v + ENTRIES, w, f);
    } else if !Lookup(m, d, v).Present? {
      ShrinkBack(m, ds, d, v + 1, w, f);
    } else {
      MappedUser(m, ds, d, v);
      UnmapOk(m, ds, d, v);
      ShrinkBack(Unmap(m, d, v), ds, d, v + 1, w, f);
      UnmapBack(m, ds, d, v, f);
    }
  }

  const KERNBASE: nat := 0x8000_0000

  /** PGROUNDUP, in pages */
  function Up(sz: nat): (n: nat)
    ensures sz <= 4096 * n < sz + 4096
  {
    (sz + PGSIZE - 1) / PGSIZE
  }

  /** Remap: mappages' panic on a page that is already mapped. */
  datatype Sized = Sized(size: nat, m: Mem) | Remap

  /** The first mapped page of v .. w, or w. */
  function NextMapped(m: Mem, d: nat, v: nat, w: nat): (u: nat)
    ensures u <= w && (v <= w ==> v <= u) && (u < w ==> Lookup(m, d, u).Present?)
    ensures forall k :: v <= k < u ==> Lookup(m, d, k) == Absent
    decreases w - v
  {
    if v >= w then w else if Lookup(m, d, v).Present? then v else NextMapped(m, d, v + 1, w)
  }

  lemma UpMore(a: nat, b: nat)
    requires a <= b < KERNBASE
    ensures Up(a) <= Up(b) <= USER_PAGES
  {
  }

  ghost function Alloc(m: Mem, ds: set<nat>, d: nat, oldsz: nat, newsz: nat): (r: Sized)
    requires Owned(m, ds) && d in ds
  {
    if newsz >= KERNBASE then Sized(0, m)
    else if newsz < oldsz then Sized(oldsz, m)
    else
      UpMore(oldsz, newsz);
      var v, w := Up(oldsz), Up(newsz);
      var u := NextMapped(m, d, v, w);
      GrowExact(m, ds, d, v, u);
      var g := Grow(m, ds, d, v, u);
      if g.ok && u == w then Sized(newsz, g.m)
      else if g.ok && g.m.free != [] then Remap
      else Sized(0, Shrink(g.m, ds, d, v, w))
  }

  /** deallocuvm finds every page that allocuvm has just mapped. */
  lemma GrownMissesNone(m: Mem, g: Grown, ds: set<nat>, d: nat, v: nat, w: nat, u: nat)
    requires GrownOk(m, g, ds, d, v, w) && w <= USER_PAGES
    ensures !Missed(g.m, d, v, w, u)
  {
    if v <= u < w && Lookup(g.m, d, u).Present? {
      assert u < g.top && NewPage(m, g.m, d, v);
      assert EntryAt(g.m, d, v / ENTRIES).Present?;
      if u / ENTRIES == v / ENTRIES { assert u % ENTRIES >= v % ENTRIES; }
    }
  }

  /** An out-of-memory return leaves the user mapping of every process as it was. */
  lemma UndoneSame(m: Mem, g: Grown, ds: set<nat>, d: nat, v: nat, w: nat)
    requires d in ds && v <= w <= USER_PAGES && Clear(m, d, v, w) && GrownOk(m, g, ds, d, v, w)
    ensures var r := Shrink(g.m, ds, d, v, w); Owned(r, ds) && SameElsewhere(m, r, ds, d, v, v)
  {
    var r := Shrink(g.m, ds, d, v, w);
    ShrinkExact(g.m, ds, d, v, w);
    forall x | InRange(ds, x) && x.User? ensures SameUser(m, r, x) {
      if x.d == d && v <= x.v < w {
        GrownMissesNone(m, g, ds, d, v, w, x.v);
        assert Lookup(m, d, x.v) == Absent && !Lookup(r, d, x.v).Present?;
      } else {
        assert SameUser(m, g.m, x) && SameUser(g.m, r, x);
      }
    }
  }

  lemma LosesIffShort(m: Mem, ds: set<nat>, d: nat, v: nat, u: nat, w: nat, r: Mem)
    requires Owned(m, ds) && d in ds && v <= u <= w <= USER_PAGES && Clear(m, d, v, u)
    requires Owned(Grow(m, ds, d, v, u).m, ds)
    requires r == Grow(m, ds, d, v, u).m || r == Shrink(Grow(m, ds, d, v, u).m, ds, d, v, w)
    ensures NothingLost(m, r, ds, ds) <==> !RunsShort(m, d, v, u)
  {
    LeakIff(m, ds, d, v, u);
    var g := Grow(m, ds, d, v, u);
    if g.leaked {
      var f := GrowLoses(m, ds, d, v, u);
      assert Accounted(m, ds, f) && !Accounted(g.m, ds, f);
      if Accounted(r, ds, f) && r != g.m { ShrinkBack(g.m, ds, d, v, w, f); }
    } else {
      GrowKeeps(m, ds, d, v, u);
      ShrinkKeeps(g.m, ds, d, v, w);
    }
  }

  /** allocuvm with nothing mapped between the old and the new size, as its callers
      leave it. With enough frames it adds exactly the pages up to newsz, on fresh zeroed
      frames, and reports newsz; it also reports newsz, with the last page missing, when
      only the last page's table cannot be had; otherwise it reports 0 and every process
      sees its memory unchanged. */
  ghost predicate AllocClear(m: Mem, r: Sized, ds: set<nat>, d: nat, v: nat, w: nat, newsz: nat) {
    var n := Need(m, d, v, w);
    var almost := v < w && |m.free| == n - 1 && CostFrom(m, d, v, w - 1) == 2;
    && r.Sized?
    && (|m.free| >= n ==> r.size == newsz && |r.m.free| == |m.free| - n && forall u :: v <= u < w ==> NewPage(m, r.m, d, u))
    && (almost ==>
          r.size == newsz && Lookup(r.m, d, w - 1) == Absent && forall u :: v <= u < w - 1 ==> NewPage(m, r.m, d, u))
    && (|m.free| < n && !almost ==> r.size == 0 && SameElsewhere(m, r.m, ds, d, v, v))
  }

  /** allocuvm, exactly. If a page above the old size is mapped it panics, provided the
      frames last until there. A frame is lost exactly if the supply runs out between a
      page and its page table. */
  lemma AllocExact(m: Mem, ds: set<nat>, d: nat, oldsz: nat, newsz: nat)
    requires Owned(m, ds) && d in ds && oldsz <= newsz < KERNBASE
    ensures var r, v, w := Alloc(m, ds, d, oldsz, newsz), Up(oldsz), Up(newsz);
      var u := NextMapped(m, d, v, w);
      && (r.Remap? <==> u < w && |m.free| > Need(m, d, v, u))
      && (r.Sized? ==> Owned(r.m, ds) && SameElsewhere(m, r.m, ds, d, v, w))
      && (r.Sized? ==> (NothingLost(m, r.m, ds, ds) <==> !RunsShort(m, d, v, u)))
      && (u == w ==> AllocClear(m, r, ds, d, v, w, newsz))
      && (u < w && r.Sized? ==> r.size == 0)
  {
    UpMore(oldsz, newsz);
    var v, w := Up(oldsz), Up(newsz);
    var u := NextMapped(m, d, v, w);
    GrowExact(m, ds, d, v, u);
    var g, r := Grow(m, ds, d, v, u), Alloc(m, ds, d, oldsz, newsz);
    SameWider(m, g.m, ds, d, v, u, w);
    if r.Sized? {
      if r.m != g.m { ShrinkOutside(m, g.m, ds, d, v, w); }
      LosesIffShort(m, ds, d, v, u, w, r.m);
      if u == w && !g.ok { UndoneSame(m, g, ds, d, v, w); }
    }
  }

  lemma ShrinkOutside(m: Mem, n: Mem, ds: set<nat>, d: nat, v: nat, w: nat)
    requires Owned(n, ds) && d in ds && w <= USER_PAGES && SameElsewhere(m, n, ds, d, v, w)
    ensures Owned(Shrink(n, ds, d, v, w), ds) && SameElsewhere(m, Shrink(n, ds, d, v, w), ds, d, v, w)
  {
    ShrinkExact(n, ds, d, v, w);
    var r := Shrink(n, ds, d, v, w);
    forall x | InRange(ds, x) && x.User? && !(x.d == d && v <= x.v < w) ensures SameUser(m, r, x) {
      assert SameUser(m, n, x) && SameUser(n, r, x);
    }
  }

  /** One free frame and an empty directory: growing from nothing to one page reports
      success, without the page, and the frame is gone. */
  lemma GrowsWithoutPage() returns (m: Mem)
    ensures Owned(m, {0}) && |m.free| == 1
    ensures var r := Alloc(m, {0}, 0, 0, PGSIZE);
      r.Sized? && r.size == PGSIZE && Lookup(r.m, 0, 0) == Absent && !NothingLost(m, r.m, {0}, {0})
  {
    m := Mem([1], [EmptyTable(), Filled(0)]);
    forall x | InRange({0}, x) ensures Frame(m, x) == if x == Dir(0) then Some(0) else None { }
    forall x, y | InRange({0}, x) && InRange({0}, y) ensures Apart(m, x, y) { }
    assert Owned(m, {0});
    assert Up(0) == 0 && Up(PGSIZE) == 1;
    AllocExact(m, {0}, 0, 0, PGSIZE);
    assert ShortAt(m, 0, 0, 0, |m.free|);
  }

  // ------------------------------------------------------------------- freevm

  lemma UnmapFrame(m: Mem, ds: set<nat>, d: nat, v: nat, x: Slot)
    requires Mapped1(m, ds, d, v) && TableAt(m, EntryAt(m, d, v / ENTRIES).frame) && Lookup(m, d, v).frame < |m.pages|
    requires InRange(ds, x)
    ensures Frame(Unmap(m, d, v), x) == if x == User(d, v) then None else Frame(m, x)
  {
    SetPteFrame(m, ds, d, v, Absent, x);
    ClearedOwned(m, ds, d, v);
    PushOwned(SetPte(m, d, v, Absent), ds, Lookup(m, d, v).frame);
  }

  lemma {:induction false} ShrinkFrame(m: Mem, ds: set<nat>, d: nat, v: nat, w: nat, x: Slot)
    requires Owned(m, ds) && d in ds && w <= USER_PAGES && InRange(ds, x)
    ensures Frame(Shrink(m, ds, d, v, w), x) == Frame(m, x) ||
            (x.User? && x.d == d && v <= x.v < w && Frame(Shrink(m, ds, d, v, w), x) == None)
    decreases w - v
  {
    if v >= w {
    } else if !EntryAt(m, d, v / ENTRIES).Present? {
      ShrinkFrame(m, ds, d, v + ENTRIES, w, x);
    } else if !Lookup(m, d, v).Present? {
      ShrinkFrame(m, ds, d, v + 1, w, x);
    } else {
      MappedUser(m, ds, d, v);
      UnmapOk(m, ds, d, v);
      UnmapFrame(m, ds, d, v, x);
      ShrinkFrame(Unmap(m, d, v), ds, d, v + 1, w, x);
    }
  }

  /** Every page that deallocuvm unmaps has its frame on the free list afterwards. */
  lemma ShrinkFrees(m: Mem, ds: set<nat>, d: nat, v: nat, w: nat, u: nat)
    requires Owned(m, ds) && d in ds && w <= USER_PAGES && v <= u < w && Lookup(m, d, u).Present?
    requires Lookup(Shrink(m, ds, d, v, w), d, u) == Absent
    ensures Free(Shrink(m, ds, d, v, w), Lookup(m, d, u).frame)
  {
    var r, f, y := Shrink(m, ds, d, v, w), Lookup(m, d, u).frame, User(d, u);
    assert InRange(ds, y) && Frame(m, y) == Some(f) && Accounted(m, ds, f);
    ShrinkKeeps(m, ds, d, v, w);
    assert Accounted(r, ds, f);
    if Used(r, ds, f) {
      var x :| InRange(ds, x) && Frame(r, x) == Some(f);
      ShrinkFrame(m, ds, d, v, w, x);
    }
  }

  /** freevm's second loop: the page tables from entry i on. */
  ghost function FreeTables(m: Mem, d: nat, i: nat): (r: Mem)
    decreases ENTRIES - i
  {
    if i >= ENTRIES then m
    else
      var e := EntryAt(m, d, i);
      if e.Present? && e.frame < |m.pages| then FreeTables(Push(m, e.frame), d, i + 1) else FreeTables(m, d, i + 1)
  }

  /** Halfway through that loop: es are the other spaces, and the tables before i have
      been freed. The directory itself still names them. */
  ghost predicate Dropping(o: Mem, m: Mem, es: set<nat>, d: nat, i: nat) {
    && Owned(m, es) && Fresh(m, es, d) && |m.pages| == |o.pages| && TableAt(o, d) && m.pages[d] == o.pages[d]
    && (forall j :: 0 <= j < ENTRIES && EntryAt(o, d, j).Present? ==>
          EntryAt(o, d, j).frame != d && EntryAt(o, d, j).frame < |m.pages| &&
          if j < i then Free(m, EntryAt(o, d, j).frame) else Fresh(m, es, EntryAt(o, d, j).frame))
    && (forall j, k :: 0 <= j < k < ENTRIES && EntryAt(o, d, j).Present? && EntryAt(o, d, k).Present? ==>
          EntryAt(o, d, j).frame != EntryAt(o, d, k).frame)
    && (forall f: nat :: Free(o, f) ==> Free(m, f))
    && (forall x :: InRange(es, x) && x.User? ==> SameUser(o, m, x))
  }

  lemma DroppingStart(m: Mem, ds: set<nat>, d: nat)
    requires Owned(m, ds) && d in ds
    ensures Dropping(m, m, ds - {d}, d, 0)
  {
    var es := ds - {d};
    assert InRange(ds, Dir(d)) && SlotOk(m, Dir(d));
    forall x | InRange(es, x) ensures InRange(ds, x) && SlotOk(m, x) && Frame(m, x) != Some(d) { assert Apart(m, x, Dir(d)); }
    forall x, y | InRange(es, x) && InRange(es, y) ensures Apart(m, x, y) {}
    forall j | 0 <= j < ENTRIES && EntryAt(m, d, j).Present?
      ensures EntryAt(m, d, j).frame != d && Fresh(m, es, EntryAt(m, d, j).frame)
    {
      var t := Tab(d, j);
      assert InRange(ds, t) && SlotOk(m, t) && Apart(m, t, Dir(d));
      forall x | InRange(es, x) ensures Frame(m, x) != Some(EntryAt(m, d, j).frame) { assert InRange(ds, x) && Apart(m, x, t); }
    }
    forall j, k | 0 <= j < k < ENTRIES && EntryAt(m, d, j).Present? && EntryAt(m, d, k).Present?
      ensures EntryAt(m, d, j).frame != EntryAt(m, d, k).frame
    {
      assert InRange(ds, Tab(d, j)) && InRange(ds, Tab(d, k)) && Apart(m, Tab(d, j), Tab(d, k));
    }
  }

  lemma PushFree(m: Mem, f: nat, g: nat)
    requires f < |m.pages|
    ensures Free(Push(m, f), g) <==> Free(m, g) || g == f
  {
    var r := Push(m, f);
    if Free(m, g) {
      var k :| 0 <= k < |m.free| && m.free[k] == g;
      assert r.free[k] == g;
    }
    assert r.free[|m.free|] == f;
  }

  lemma PushFresh(m: Mem, es: set<nat>, f: nat, g: nat)
    requires Owned(m, es) && Fresh(m, es, f) && Fresh(m, es, g) && f != g
    ensures Fresh(Push(m, f), es, g)
  {
    PushOwned(m, es, f);
    PushFree(m, f, g);
  }

  lemma DroppingStep(o: Mem, m: Mem, es: set<nat>, d: nat, i: nat)
    requires Dropping(o, m, es, d, i) && i < ENTRIES && EntryAt(o, d, i).Present?
    ensures EntryAt(m, d, i) == EntryAt(o, d, i) && Dropping(o, Push(m, EntryAt(o, d, i).frame), es, d, i + 1)
  {
    var t := EntryAt(o, d, i).frame;
    var r := Push(m, t);
    PushOwned(m, es, t);
    PushFresh(m, es, t, d);
    forall j | 0 <= j < ENTRIES && EntryAt(o, d, j).Present?
      ensures if j < i + 1 then Free(r, EntryAt(o, d, j).frame) else Fresh(r, es, EntryAt(o, d, j).frame)
    {
      PushFree(m, t, EntryAt(o, d, j).frame);
      if j > i { PushFresh(m, es, t, EntryAt(o, d, j).frame); }
    }
    forall f: nat | Free(o, f) ensures Free(r, f) { PushFree(m, t, f); }
    forall x | InRange(es, x) && x.User? ensures SameUser(o, r, x) {
      assert SameUser(o, m, x);
      PushKeeps(m, es, t, x);
    }
  }

  lemma {:induction false} TablesDropped(o: Mem, m: Mem, es: set<nat>, d: nat, i: nat)
    requires Dropping(o, m, es, d, i) && i <= ENTRIES
    ensures Dropping(o, FreeTables(m, d, i), es, d, ENTRIES)
    decreases ENTRIES - i
  {
    if i < ENTRIES {
      assert EntryAt(m, d, i) == EntryAt(o, d, i);
      if EntryAt(o, d, i).Present? {
        DroppingStep(o, m, es, d, i);
        TablesDropped(o, Push(m, EntryAt(o, d, i).frame), es, d, i + 1);
      } else {
        TablesDropped(o, m, es, d, i + 1);
      }
    }
  }

  ghost function FreeVm(m: Mem, ds: set<nat>, d: nat): (r: Mem)
    requires Owned(m, ds) && d in ds
  {
    FreeVmDefined(m, ds, d);
    Push(FreeTables(Shrink(m, ds, d, 0, USER_PAGES), d, 0), d)
  }

  /** Starting at page 0, deallocuvm misses nothing, contiguous or not. */
  lemma ShrinkAll(m: Mem, ds: set<nat>, d: nat)
    requires Owned(m, ds) && d in ds
    ensures Owned(Shrink(m, ds, d, 0, USER_PAGES), ds) && Clear(Shrink(m, ds, d, 0, USER_PAGES), d, 0, USER_PAGES)
  {
    ShrinkExact(m, ds, d, 0, USER_PAGES);
  }

  lemma FreeVmDefined(m: Mem, ds: set<nat>, d: nat)
    requires Owned(m, ds) && d in ds
    ensures d < |FreeTables(Shrink(m, ds, d, 0, USER_PAGES), d, 0).pages|
    ensures var o := Shrink(m, ds, d, 0, USER_PAGES); Dropping(o, FreeTables(o, d, 0), ds - {d}, d, ENTRIES)
  {
    var o := Shrink(m, ds, d, 0, USER_PAGES);
    ShrinkAll(m, ds, d);
    DroppingStart(o, ds, d);
    TablesDropped(o, o, ds - {d}, d, 0);
  }

  /** freevm puts every frame of the space, be it user page, page table or directory,
      on the free list, each once since the list has no repetitions, and leaves the
      memory of all other processes alone. */
  lemma FreeVmExact(m: Mem, ds: set<nat>, d: nat, x: Slot, f: nat)
    requires Owned(m, ds) && d in ds
    ensures var r := FreeVm(m, ds, d);
      && Owned(r, ds - {d})
      && (InRange({d}, x) && Frame(m, x).Some? ==> Free(r, Frame(m, x).value))
      && (Free(m, f) ==> Free(r, f))
      && (InRange(ds - {d}, x) && x.User? ==> SameUser(m, r, x))
  {
    var es := ds - {d};
    var o := Shrink(m, ds, d, 0, USER_PAGES);
    var t, r := FreeTables(o, d, 0), FreeVm(m, ds, d);
    FreeVmDefined(m, ds, d);
    PushOwned(t, es, d);
    ShrinkAll(m, ds, d);
    ShrinkKeeps(m, ds, d, 0, USER_PAGES);
    PushFree(t, d, f);
    if InRange({d}, x) && Frame(m, x).Some? {
      assert InRange(ds, x);
      PushFree(t, d, Frame(m, x).value);
      if x.Tab? { ShrinkFrame(m, ds, d, 0, USER_PAGES, x); }
      if x.User? { ShrinkFrees(m, ds, d, 0, USER_PAGES, x.v); }
    }
    if InRange(es, x) && x.User? {
      ShrinkExact(m, ds, d, 0, USER_PAGES);
      assert InRange(ds, x) && SameUser(m, o, x) && SameUser(o, t, x);
      PushKeeps(t, es, d, x);
    }
  }

  /** So no frame is lost. */
  lemma FreeVmKeeps(m: Mem, ds: set<nat>, d: nat)
    requires Owned(m, ds) && d in ds
    ensures NothingLost(m, FreeVm(m, ds, d), ds, ds - {d})
  {
    var r, es, o := FreeVm(m, ds, d), ds - {d}, Shrink(m, ds, d, 0, USER_PAGES);
    FreeVmDefined(m, ds, d);
    forall f: nat | Accounted(m, ds, f) ensures Accounted(r, es, f) {
      if Free(m, f) {
        FreeVmExact(m, ds, d, Dir(d), f);
      } else {
        var x :| InRange(ds, x) && Frame(m, x) == Some(f);
        if x.d == d { FreeVmExact(m, ds, d, x, f); } else { FreeVmOthers(m, ds, d, x); }
      }
    }
  }

  lemma {:induction false} DropFrame(o: Mem, m: Mem, es: set<nat>, d: nat, i: nat, x: Slot)
    requires Dropping(o, m, es, d, i) && i <= ENTRIES && InRange(es, x)
    ensures Frame(FreeTables(m, d, i), x) == Frame(m, x)
    decreases ENTRIES - i
  {
    if i < ENTRIES {
      assert EntryAt(m, d, i) == EntryAt(o, d, i);
      if EntryAt(o, d, i).Present? {
        DroppingStep(o, m, es, d, i);
        PushOwned(m, es, EntryAt(o, d, i).frame);
        DropFrame(o, Push(m, EntryAt(o, d, i).frame), es, d, i + 1, x);
      } else {
        DropFrame(o, m, es, d, i + 1, x);
      }
    }
  }

  lemma FreeVmOthers(m: Mem, ds: set<nat>, d: nat, x: Slot)
    requires Owned(m, ds) && d in ds && InRange(ds - {d}, x)
    ensures Frame(FreeVm(m, ds, d), x) == Frame(m, x)
  {
    var es, o := ds - {d}, Shrink(m, ds, d, 0, USER_PAGES);
    FreeVmDefined(m, ds, d);
    ShrinkAll(m, ds, d);
    DroppingStart(o, ds, d);
    ShrinkFrame(m, ds, d, 0, USER_PAGES, x);
    DropFrame(o, o, es, d, 0, x);
    PushOwned(FreeTables(o, d, 0), es, d);
  }

  // ------------------------------------------------------------- a new space

  /** setupkvm's first step: a directory without tables. */
  lemma NewSpace(m: Mem, ds: set<nat>)
    requires Owned(m, ds) && m.free != []
    ensures var e := Top(m);
      && e < |m.pages| && e !in ds
      && var r := Take(m, EmptyTable());
         && Owned(r, ds + {e}) && Contiguous(r, e, 0) && r.free == m.free[..|m.free| - 1]
         && (forall x :: InRange(ds, x) ==> Frame(r, x) == Frame(m, x) && (x.User? ==> SameUser(m, r, x)))
         && forall j: nat :: EntryAt(r, e, j) == Absent
  {
    var e := Top(m);
    assert Free(m, e);
    if e in ds { assert InRange(ds, Dir(e)) && SlotOk(m, Dir(e)); }
    TakeOk(m, ds, EmptyTable());
    var r := Take(m, EmptyTable());
    assert SameElsewhere(m, r, ds, 0, 0, 0);
    forall x | InRange(ds + {e}, x) && !InRange(ds, x) ensures SlotOk(r, x) && (Frame(r, x).Some? ==> x == Dir(e)) {}
    forall x, y | InRange(ds + {e}, x) && InRange(ds + {e}, y) ensures Apart(r, x, y) {
      if InRange(ds, x) && InRange(ds, y) { assert Apart(r, x, y); }
    }
    forall x | InRange(ds + {e}, x) ensures SlotOk(r, x) {
      if InRange(ds, x) { assert SlotOk(r, x); }
    }
  }
}
