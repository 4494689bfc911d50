/** The user-space allocator (umalloc.c): one circular free list in address order,
    coalesced on every free. Addresses are bytes; sizes are in units of one header. */
module Heap {
  import opened Options

  /** sizeof(Header) */
  const UNIT: int := 8

  const UINT: int := 0x1_0000_0000

  /** A block: header address and size in units, the header included. */
  datatype Block = Block(addr: int, size: int)

  function End(b: Block): int { b.addr + UNIT * b.size }

  predicate Disjoint(b: Block, c: Block) { End(b) <= c.addr || End(c) <= b.addr }

  predicate Holds(b: Block, x: int) { b.addr <= x < End(b) }

  // ---------------------------------------------------------- the free list

  predicate Before(f: seq<Block>, i: nat, j: nat)
    requires i < j < |f|
  {
    End(f[i]) <= f[j].addr && f[i].addr < f[j].addr
  }

  /** Address order without overlap; only the list head, `base`, has no units. */
  ghost predicate Sorted(f: seq<Block>) {
    && (forall i, j :: 0 <= i < j < |f| ==> Before(f, i, j))
    && (forall i :: 0 < i < |f| ==> f[i].size >= 1)
    && (f != [] ==> f[0].size == 0)
  }

  /** Block i does not touch its successor. */
  predicate Loose(f: seq<Block>, i: nat) { i + 1 < |f| ==> End(f[i]) < f[i + 1].addr }

  ghost predicate Coalesced(f: seq<Block>) { forall i :: 0 <= i < |f| ==> Loose(f, i) }

  ghost predicate Covered(f: seq<Block>, x: int) { exists i :: 0 <= i < |f| && Holds(f[i], x) }

  function Units(f: seq<Block>, k: nat): (r: int)
    requires k <= |f|
  {
    if k == 0 then 0 else Units(f, k - 1) + f[k - 1].size
  }

  /** b belongs right after block k. */
  predicate Between(f: seq<Block>, k: nat, b: Block) {
    k < |f| && f[k].addr < b.addr && (k + 1 < |f| ==> b.addr < f[k + 1].addr)
  }

  function InsertAt(f: seq<Block>, k: nat, b: Block): (r: seq<Block>)
    requires k <= |f|
    ensures |r| == |f| + 1
  {
    seq(|f| + 1, i requires 0 <= i <= |f| => if i < k then f[i] else if i == k then b else f[i - 1])
  }

  /** Blocks k and k + 1 become one if they touch. */
  function MergeAt(f: seq<Block>, k: nat): (r: seq<Block>) {
    if k + 1 < |f| && End(f[k]) == f[k + 1].addr then
      seq(|f| - 1, i requires 0 <= i < |f| - 1 =>
        if i < k then f[i] else if i == k then Block(f[k].addr, f[k].size + f[k + 1].size) else f[i + 1])
    else f
  }

  /** free: b goes back after block k and is joined to whatever it touches. */
  function Join(f: seq<Block>, k: nat, b: Block): (r: seq<Block>)
    requires k < |f|
  {
    MergeAt(MergeAt(InsertAt(f, k + 1, b), k + 1), k)
  }

  lemma InsertSorted(f: seq<Block>, k: nat, b: Block)
    requires Sorted(f) && Between(f, k, b) && b.size >= 1
    requires forall i :: 0 <= i < |f| ==> Disjoint(f[i], b)
    ensures Sorted(InsertAt(f, k + 1, b))
  {
    var g := InsertAt(f, k + 1, b);
    forall i, j | 0 <= i < j < |g| ensures Before(g, i, j) {
      if i == k + 1 {
        assert Disjoint(f[k + 1], b) && (j > k + 2 ==> Before(f, k + 1, j - 1));
      } else if j == k + 1 {
        assert Disjoint(f[i], b) && (i < k ==> Before(f, i, k));
      } else {
        assert Before(f, if i < k + 1 then i else i - 1, if j < k + 1 then j else j - 1);
      }
    }
  }

  lemma InsertLoose(f: seq<Block>, k: nat, b: Block, i: nat)
    requires Coalesced(f) && k < |f| && i <= |f| && i != k && i != k + 1
    ensures Loose(InsertAt(f, k + 1, b), i)
  {
    if i < k { assert Loose(f, i); } else { assert Loose(f, i - 1); }
  }

  lemma InsertCovers(f: seq<Block>, k: nat, b: Block, x: int)
    requires k <= |f|
    ensures Covered(InsertAt(f, k, b), x) <==> Covered(f, x) || Holds(b, x)
  {
    var g := InsertAt(f, k, b);
    if Covered(g, x) {
      var i :| 0 <= i < |g| && Holds(g[i], x);
      if i < k { assert Holds(f[i], x); } else if i > k { assert Holds(f[i - 1], x); }
    }
    if Covered(f, x) {
      var i :| 0 <= i < |f| && Holds(f[i], x);
      assert g[if i < k then i else i + 1] == f[i];
    }
    assert g[k] == b;
  }

  lemma {:induction false} InsertUnits(f: seq<Block>, k: nat, b: Block, n: nat)
    requires k <= |f| && n <= |f| + 1
    ensures Units(InsertAt(f, k, b), n) == if n <= k then Units(f, n) else Units(f, n - 1) + b.size
  {
    if n > 0 { InsertUnits(f, k, b, n - 1); }
  }

  lemma MergeBefore(f: seq<Block>, k: nat, i: nat, j: nat)
    requires Sorted(f) && k + 1 < |f| && End(f[k]) == f[k + 1].addr && i < j < |f| - 1
    ensures |MergeAt(f, k)| == |f| - 1 && Before(MergeAt(f, k), i, j)
  {
    var i', j' := if i > k then i + 1 else i, if j > k then j + 1 else j;
    assert Before(f, i', j') && Before(f, k, k + 1);
    if i == k { assert Before(f, k + 1, j'); }
  }

  lemma MergeSorted(f: seq<Block>, k: nat)
    requires Sorted(f)
    ensures Sorted(MergeAt(f, k)) && (f != [] ==> MergeAt(f, k) != [] && MergeAt(f, k)[0].addr == f[0].addr)
  {
    if k + 1 < |f| && End(f[k]) == f[k + 1].addr {
      var g := MergeAt(f, k);
      assert Before(f, k, k + 1);
      forall i, j | 0 <= i < j < |g| ensures Before(g, i, j) { MergeBefore(f, k, i, j); }
    }
  }

  lemma MergeLoose(f: seq<Block>, k: nat, i: nat)
    requires k < |f| && (k + 1 < |f| ==> End(f[k]) <= f[k + 1].addr)
    requires i != k ==> Loose(f, i)
    requires i >= k ==> Loose(f, i + 1)
    ensures Loose(MergeAt(f, k), i)
  {
  }

  lemma MergeCovers(f: seq<Block>, k: nat, x: int)
    requires k + 1 < |f| ==> f[k].size >= 0 && f[k + 1].size >= 0
    ensures Covered(MergeAt(f, k), x) <==> Covered(f, x)
  {
    var g := MergeAt(f, k);
    if g != f {
      if Covered(g, x) {
        var i :| 0 <= i < |g| && Holds(g[i], x);
        assert Holds(f[if i < k || (i == k && x < End(f[k])) then i else i + 1], x);
      }
      if Covered(f, x) {
        var i :| 0 <= i < |f| && Holds(f[i], x);
        assert Holds(g[if i <= k then i else i - 1], x);
      }
    }
  }

  lemma {:induction false} MergeUnits(f: seq<Block>, k: nat, n: nat)
    requires k + 1 < |f| && End(f[k]) == f[k + 1].addr && n < |f|
    ensures Units(MergeAt(f, k), n) == if n <= k then Units(f, n) else Units(f, n + 1)
  {
    if n > 0 { MergeUnits(f, k, n - 1); }
  }

  lemma JoinSorted(f: seq<Block>, k: nat, b: Block)
    requires Sorted(f) && Between(f, k, b) && b.size >= 1
    requires forall i :: 0 <= i < |f| ==> Disjoint(f[i], b)
    ensures Sorted(Join(f, k, b)) && Join(f, k, b) != [] && Join(f, k, b)[0].addr == f[0].addr
  {
    var g := InsertAt(f, k + 1, b);
    InsertSorted(f, k, b);
    MergeSorted(g, k + 1);
    MergeSorted(MergeAt(g, k + 1), k);
  }

  /** Only the two places where b meets its neighbours can touch, and free merges
      both. */
  lemma JoinCoalesced(f: seq<Block>, k: nat, b: Block)
    requires Coalesced(f) && Between(f, k, b) && End(f[k]) <= b.addr && (k + 1 < |f| ==> End(b) <= f[k + 1].addr)
    ensures Coalesced(Join(f, k, b))
  {
    var g := InsertAt(f, k + 1, b);
    var h := MergeAt(g, k + 1);
    forall i | 0 <= i < |h| && i != k ensures Loose(h, i) { FirstMerge(f, k, b, i); }
    assert h[k] == f[k] && h[k + 1].addr == b.addr;
    var r := MergeAt(h, k);
    forall i | 0 <= i < |r| ensures Loose(r, i) {
      if i >= k && i + 1 < |h| { assert Loose(h, i + 1); }
      if i != k { assert Loose(h, i); }
      MergeLoose(h, k, i);
    }
  }

  lemma FirstMerge(f: seq<Block>, k: nat, b: Block, i: nat)
    requires Coalesced(f) && k < |f| && i <= |f| && i != k && (k + 1 < |f| ==> End(b) <= f[k + 1].addr)
    ensures Loose(MergeAt(InsertAt(f, k + 1, b), k + 1), i)
  {
    var g := InsertAt(f, k + 1, b);
    if i != k + 1 { InsertLoose(f, k, b, i); }
    if i > k && i < |f| { InsertLoose(f, k, b, i + 1); }
    MergeLoose(g, k + 1, i);
  }

  lemma JoinCovers(f: seq<Block>, k: nat, b: Block, x: int)
    requires Sorted(f) && k < |f| && b.size >= 1
    ensures Covered(Join(f, k, b), x) <==> Covered(f, x) || Holds(b, x)
  {
    var g := InsertAt(f, k + 1, b);
    InsertCovers(f, k + 1, b, x);
    MergeCovers(g, k + 1, x);
    MergeCovers(MergeAt(g, k + 1), k, x);
  }

  lemma JoinUnits(f: seq<Block>, k: nat, b: Block)
    requires k < |f|
    ensures Units(Join(f, k, b), |Join(f, k, b)|) == Units(f, |f|) + b.size
  {
    var g := InsertAt(f, k + 1, b);
    var h := MergeAt(g, k + 1);
    InsertUnits(f, k + 1, b, |g|);
    if h != g { MergeUnits(g, k + 1, |h|); }
    if MergeAt(h, k) != h { MergeUnits(h, k, |h| - 1); }
  }

  /** malloc: n units are cut off the end of block i. */
  function Cut(f: seq<Block>, i: nat, n: int): (r: seq<Block>)
    requires i < |f|
  {
    if f[i].size == n then seq(|f| - 1, j requires 0 <= j < |f| - 1 => if j < i then f[j] else f[j + 1])
    else f[i := Block(f[i].addr, f[i].size - n)]
  }

  function Tail(b: Block, n: int): Block { Block(b.addr + UNIT * (b.size - n), n) }

  predicate Fits(f: seq<Block>, i: nat, n: int) { i < |f| && f[i].size >= n }

  lemma CutOk(f: seq<Block>, i: nat, n: int)
    requires Sorted(f) && Coalesced(f) && n >= 1 && Fits(f, i, n)
    ensures Sorted(Cut(f, i, n)) && Coalesced(Cut(f, i, n))
    ensures Cut(f, i, n) != [] && Cut(f, i, n)[0] == f[0]
  {
    var g := Cut(f, i, n);
    forall j | 0 <= j < |g| ensures Loose(g, j) {
      if f[i].size == n && j >= i { assert Loose(f, j + 1); } else { assert Loose(f, j); }
      if j + 2 < |f| { assert Before(f, j, j + 1) && Before(f, j + 1, j + 2); }
    }
    forall j, l | 0 <= j < l < |g| ensures Before(g, j, l) {
      if f[i].size == n {
        assert Before(f, if j < i then j else j + 1, if l < i then l else l + 1);
      } else {
        assert Before(f, j, l);
      }
    }
  }

  lemma CutCovers(f: seq<Block>, i: nat, n: int, x: int)
    requires Sorted(f) && n >= 1 && Fits(f, i, n)
    ensures Covered(Cut(f, i, n), x) <==> Covered(f, x) && !Holds(Tail(f[i], n), x)
    ensures Holds(Tail(f[i], n), x) ==> Covered(f, x)
  {
    if Covered(Cut(f, i, n), x) { CutInside(f, i, n, x); }
    if Covered(f, x) && !Holds(Tail(f[i], n), x) { CutKeeps(f, i, n, x); }
    if Holds(Tail(f[i], n), x) { assert Holds(f[i], x); }
  }

  lemma CutInside(f: seq<Block>, i: nat, n: int, x: int)
    requires Sorted(f) && n >= 1 && Fits(f, i, n) && Covered(Cut(f, i, n), x)
    ensures Covered(f, x) && !Holds(Tail(f[i], n), x)
  {
    var g := Cut(f, i, n);
    var j :| 0 <= j < |g| && Holds(g[j], x);
    var j' := if f[i].size == n && j >= i then j + 1 else j;
    assert Holds(f[j'], x);
    if j' < i { assert Before(f, j', i); } else if j' > i { assert Before(f, i, j'); }
  }

  lemma CutKeeps(f: seq<Block>, i: nat, n: int, x: int)
    requires i < |f| && n <= f[i].size && Covered(f, x) && !Holds(Tail(f[i], n), x)
    ensures Covered(Cut(f, i, n), x)
  {
    var g := Cut(f, i, n);
    var j :| 0 <= j < |f| && Holds(f[j], x);
    assert Holds(g[if f[i].size == n && j > i then j - 1 else j], x);
  }

  lemma {:induction false} CutUnits(f: seq<Block>, i: nat, n: int, k: nat)
    requires i < |f| && k <= |Cut(f, i, n)|
    ensures Units(Cut(f, i, n), k) ==
      if k <= i then Units(f, k) else if f[i].size == n then Units(f, k + 1) - n else Units(f, k) - n
  {
    if k > 0 { CutUnits(f, i, n, k - 1); }
  }

  // -------------------------------------------------------------- live blocks

  ghost predicate LiveHolds(live: map<int, int>, x: int) { exists a :: a in live && Holds(Block(a, live[a]), x) }

  function LiveAt(live: map<int, int>, a: int): (r: int) { if a in live then live[a] else 0 }

  /** Units of the live blocks at addresses below k. */
  function LiveUnits(live: map<int, int>, k: nat): (r: int) {
    if k == 0 then 0 else LiveUnits(live, k - 1) + LiveAt(live, k - 1)
  }

  lemma {:induction false} LiveUnitsChange(live: map<int, int>, other: map<int, int>, a: nat, k: nat)
    requires forall b: nat :: b != a ==> LiveAt(live, b) == LiveAt(other, b)
    ensures LiveUnits(other, k) - LiveUnits(live, k) == if a < k then LiveAt(other, a) - LiveAt(live, a) else 0
  {
    if k > 0 { LiveUnitsChange(live, other, a, k - 1); }
  }

  // -------------------------------------------------------------------- state

  /** The free list, the blocks malloc has handed out, and the stretches of memory
      obtained from sbrk. Before the first malloc the list is empty. */
  datatype State = State(free: seq<Block>, live: map<int, int>, arena: seq<Block>)

  /** Byte x was obtained from sbrk exactly if it is free or live, and is not both. */
  ghost predicate Accounted(s: State, x: int) {
    && (Covered(s.arena, x) <==> Covered(s.free, x) || LiveHolds(s.live, x))
    && !(Covered(s.free, x) && LiveHolds(s.live, x))
  }

  /** The end of the address space that sbrk can hand out. */
  const LIMIT: nat := 0x8000_0000

  ghost predicate Placed(base: int, b: Block) { base + UNIT <= b.addr && b.size >= 1 && End(b) <= LIMIT }

  ghost predicate Inv(base: int, s: State) {
    && 0 < base
    && Sorted(s.free) && Coalesced(s.free) && (s.free != [] ==> s.free[0] == Block(base, 0))
    && (s.free == [] ==> s.live == map[] && s.arena == [])
    && (forall a :: a in s.live ==> s.live[a] >= 1)
    && (forall a, b :: a in s.live && b in s.live && a != b ==> Disjoint(Block(a, s.live[a]), Block(b, s.live[b])))
    && (forall i :: 0 <= i < |s.arena| ==> Placed(base, s.arena[i]))
    && (forall x :: Accounted(s, x))
    && Units(s.free, |s.free|) + LiveUnits(s.live, LIMIT) == Units(s.arena, |s.arena|)
  }

  function FreeBlock(s: State, k: nat, a: int): (r: State)
    requires k < |s.free| && a in s.live
  {
    State(Join(s.free, k, Block(a, s.live[a])), s.live - {a}, s.arena)
  }

  function CutBlock(s: State, i: nat, n: int): (r: State)
    requires i < |s.free|
  {
    State(Cut(s.free, i, n), s.live[Tail(s.free[i], n).addr := n], s.arena)
  }

  function Grow(s: State, k: nat, b: Block): (r: State)
    requires k < |s.free|
  {
    State(Join(s.free, k, b), s.live, s.arena + [b])
  }

  /** A block none of whose bytes is free is disjoint from every free block. */
  lemma FreeDisjoint(base: int, f: seq<Block>, b: Block, i: nat)
    requires Sorted(f) && i < |f| && f[0] == Block(base, 0) && base < b.addr && b.size >= 1
    requires forall x :: Holds(b, x) ==> !Covered(f, x)
    ensures Disjoint(f[i], b)
  {
    if i > 0 && !Disjoint(f[i], b) {
      var x := if f[i].addr < b.addr then b.addr else f[i].addr;
      assert Holds(f[i], x) && Holds(b, x);
    }
  }

  lemma LiveHeld(live: map<int, int>, a: int, x: int)
    requires a in live && Holds(Block(a, live[a]), x)
    ensures LiveHolds(live, x)
  {
  }

  lemma LivePlaced(base: int, s: State, a: int)
    requires Inv(base, s) && a in s.live
    ensures base + UNIT <= a < LIMIT
  {
    LiveHeld(s.live, a, a);
    assert Accounted(s, a);
    var i :| 0 <= i < |s.arena| && Holds(s.arena[i], a);
    assert Placed(base, s.arena[i]);
  }

  /** Every live block is disjoint from every free block. */
  lemma LiveNotFree(base: int, s: State, a: int, i: nat)
    requires Inv(base, s) && a in s.live && i < |s.free|
    ensures Disjoint(s.free[i], Block(a, s.live[a]))
  {
    LivePlaced(base, s, a);
    forall x | Holds(Block(a, s.live[a]), x) ensures !Covered(s.free, x) {
      LiveHeld(s.live, a, x);
      assert Accounted(s, x);
    }
    FreeDisjoint(base, s.free, Block(a, s.live[a]), i);
  }

  lemma RemoveHolds(live: map<int, int>, a: int, x: int)
    requires a in live
    requires forall c :: c in live && c != a ==> Disjoint(Block(a, live[a]), Block(c, live[c]))
    ensures LiveHolds(live - {a}, x) <==> LiveHolds(live, x) && !Holds(Block(a, live[a]), x)
  {
    if LiveHolds(live, x) && !Holds(Block(a, live[a]), x) {
      var c :| c in live && Holds(Block(c, live[c]), x);
      assert c in live - {a};
    }
  }

  lemma AddHolds(live: map<int, int>, a: int, n: int, x: int)
    requires a !in live
    ensures LiveHolds(live[a := n], x) <==> LiveHolds(live, x) || Holds(Block(a, n), x)
  {
    if LiveHolds(live, x) {
      var c :| c in live && Holds(Block(c, live[c]), x);
      assert c in live[a := n];
    }
    assert a in live[a := n];
  }

  lemma FreeInv(base: int, s: State, k: nat, a: int)
    requires Inv(base, s) && a in s.live && Between(s.free, k, Block(a, s.live[a]))
    ensures Inv(base, FreeBlock(s, k, a))
  {
    var b := Block(a, s.live[a]);
    var t := FreeBlock(s, k, a);
    forall i | 0 <= i < |s.free| ensures Disjoint(s.free[i], b) { LiveNotFree(base, s, a, i); }
    JoinSorted(s.free, k, b);
    assert Disjoint(s.free[k], b) && (k + 1 < |s.free| ==> Disjoint(s.free[k + 1], b));
    JoinCoalesced(s.free, k, b);
    JoinUnits(s.free, k, b);
    LivePlaced(base, s, a);
    LiveUnitsChange(s.live, t.live, a, LIMIT);
    forall x ensures Accounted(t, x) {
      assert Accounted(s, x);
      JoinCovers(s.free, k, b, x);
      RemoveHolds(s.live, a, x);
      if Holds(b, x) { LiveHeld(s.live, a, x); }
    }
  }

  /** The n units that malloc cuts off are in obtained memory and touch no live block. */
  lemma TailUnused(base: int, s: State, i: nat, n: int)
    requires Inv(base, s) && n >= 1 && Fits(s.free, i, n)
    ensures var b := Tail(s.free[i], n);
      && base + UNIT <= b.addr < LIMIT && b.addr !in s.live
      && forall c :: c in s.live ==> Disjoint(b, Block(c, s.live[c]))
  {
    var b := Tail(s.free[i], n);
    forall x | Holds(b, x) ensures !LiveHolds(s.live, x) && Covered(s.arena, x) {
      CutCovers(s.free, i, n, x);
      assert Accounted(s, x);
    }
    assert Holds(b, b.addr);
    var j :| 0 <= j < |s.arena| && Holds(s.arena[j], b.addr);
    assert Placed(base, s.arena[j]);
    forall c | c in s.live ensures c != b.addr && Disjoint(b, Block(c, s.live[c])) {
      if !Disjoint(b, Block(c, s.live[c])) {
        var x := if b.addr < c then c else b.addr;
        assert Holds(b, x);
        LiveHeld(s.live, c, x);
      }
    }
  }

  lemma CutInv(base: int, s: State, i: nat, n: int)
    requires Inv(base, s) && n >= 1 && Fits(s.free, i, n)
    ensures Inv(base, CutBlock(s, i, n))
  {
    var b := Tail(s.free[i], n);
    var t := CutBlock(s, i, n);
    TailUnused(base, s, i, n);
    CutOk(s.free, i, n);
    CutUnits(s.free, i, n, |t.free|);
    LiveUnitsChange(s.live, t.live, b.addr, LIMIT);
    forall x ensures Accounted(t, x) {
      assert Accounted(s, x);
      CutCovers(s.free, i, n, x);
      AddHolds(s.live, b.addr, n, x);
    }
  }

  /** sbrk gave b: new memory above all earlier memory. */
  ghost predicate Fresh(base: int, s: State, b: Block) {
    Placed(base, b) && forall i :: 0 <= i < |s.arena| ==> End(s.arena[i]) <= b.addr
  }

  lemma {:induction false} UnitsPrefix(f: seq<Block>, b: Block, k: nat)
    requires k <= |f|
    ensures Units(f + [b], k) == Units(f, k)
  {
    if k > 0 { UnitsPrefix(f, b, k - 1); }
  }

  lemma AppendCovers(f: seq<Block>, b: Block, x: int)
    ensures Covered(f + [b], x) <==> Covered(f, x) || Holds(b, x)
  {
    if Covered(f, x) {
      var i :| 0 <= i < |f| && Holds(f[i], x);
      assert Holds((f + [b])[i], x);
    }
    assert (f + [b])[|f|] == b;
  }

  lemma FreshUnused(base: int, s: State, b: Block, x: int)
    requires Inv(base, s) && Fresh(base, s, b) && Holds(b, x)
    ensures !Covered(s.free, x) && !LiveHolds(s.live, x)
  {
    assert Accounted(s, x);
  }

  /** Fresh memory holds no header yet. */
  lemma FreshElsewhere(base: int, s: State, b: Block)
    requires Inv(base, s) && s.free != [] && Fresh(base, s, b)
    ensures forall i :: 0 <= i < |s.free| ==> s.free[i].addr != b.addr
    ensures b.addr !in s.live
  {
    FreshUnused(base, s, b, b.addr);
    forall i | 0 <= i < |s.free| ensures s.free[i].addr != b.addr {
      if i > 0 { assert Holds(s.free[i], s.free[i].addr); }
    }
    if b.addr in s.live { LiveHeld(s.live, b.addr, b.addr); }
  }

  lemma GrowInv(base: int, s: State, k: nat, b: Block)
    requires Inv(base, s) && Fresh(base, s, b) && Between(s.free, k, b)
    ensures Inv(base, Grow(s, k, b))
  {
    var t := Grow(s, k, b);
    forall x | Holds(b, x) ensures !Covered(s.free, x) { FreshUnused(base, s, b, x); }
    forall i | 0 <= i < |s.free| ensures Disjoint(s.free[i], b) { FreeDisjoint(base, s.free, b, i); }
    JoinSorted(s.free, k, b);
    assert Disjoint(s.free[k], b) && (k + 1 < |s.free| ==> Disjoint(s.free[k + 1], b));
    JoinCoalesced(s.free, k, b);
    JoinUnits(s.free, k, b);
    UnitsPrefix(s.arena, b, |s.arena|);
    forall x ensures Accounted(t, x) {
      assert Accounted(s, x);
      JoinCovers(s.free, k, b, x);
      AppendCovers(s.arena, b, x);
      if Holds(b, x) { FreshUnused(base, s, b, x); }
    }
  }

  // --------------------------------------------------------------------- runs

  function Start(base: int): State { State([Block(base, 0)], map[], []) }

  /** One action of malloc or free on the heap. */
  ghost predicate Step(base: int, s: State, t: State) {
    || (s.free == [] && t == Start(base))
    || (exists k: nat, a :: a in s.live && Between(s.free, k, Block(a, s.live[a])) && t == FreeBlock(s, k, a))
    || (exists i: nat, n :: n >= 1 && Fits(s.free, i, n) && t == CutBlock(s, i, n))
    || (exists k: nat, b :: Fresh(base, s, b) && Between(s.free, k, b) && t == Grow(s, k, b))
  }

  lemma StartInv(base: int)
    requires 0 < base
    ensures Inv(base, State([], map[], [])) && Inv(base, Start(base))
  {
    var s, t := State([], map[], []), Start(base);
    forall x ensures Accounted(s, x) && Accounted(t, x) {}
    assert Units(t.free, 1) == Units(t.free, 0);
    assert forall b: nat :: LiveAt(s.live, b) == 0;
    NoLive(s.live, LIMIT);
  }

  lemma {:induction false} NoLive(live: map<int, int>, k: nat)
    requires live == map[]
    ensures LiveUnits(live, k) == 0
  {
    if k > 0 { NoLive(live, k - 1); }
  }

  lemma StepInv(base: int, s: State, t: State)
    requires Inv(base, s) && Step(base, s, t)
    ensures Inv(base, t)
  {
    if s.free == [] && t == Start(base) {
      StartInv(base);
    } else if exists k: nat, a :: a in s.live && Between(s.free, k, Block(a, s.live[a])) && t == FreeBlock(s, k, a) {
      var k: nat, a :| a in s.live && Between(s.free, k, Block(a, s.live[a])) && t == FreeBlock(s, k, a);
      FreeInv(base, s, k, a);
    } else if exists i: nat, n :: n >= 1 && Fits(s.free, i, n) && t == CutBlock(s, i, n) {
      var i: nat, n :| n >= 1 && Fits(s.free, i, n) && t == CutBlock(s, i, n);
      CutInv(base, s, i, n);
    } else {
      var k: nat, b :| Fresh(base, s, b) && Between(s.free, k, b) && t == Grow(s, k, b);
      GrowInv(base, s, k, b);
    }
  }

  ghost predicate Run(base: int, run: seq<State>) {
    && 0 < base && run != [] && run[0] == State([], map[], [])
    && forall k :: 0 < k < |run| ==> Step(base, run[k - 1], run[k])
  }

  /** Over any sequence of malloc and free: one ordered, disjoint, fully coalesced
      list, and obtained memory is the disjoint union of free and live memory. */
  lemma {:induction false} RunInv(base: int, run: seq<State>, k: nat)
    requires Run(base, run) && k < |run|
    ensures Inv(base, run[k])
  {
    if k == 0 { StartInv(base); } else {
      RunInv(base, run, k - 1);
      assert Step(base, run[k - 1], run[k]);
      StepInv(base, run[k - 1], run[k]);
    }
  }

  /** No block is ever so large that its 32-bit size or end address would wrap. */
  lemma SizesFit(base: int, s: State, i: nat)
    requires Inv(base, s) && i < |s.free|
    ensures 0 <= s.free[i].size && (i > 0 ==> base < s.free[i].addr && End(s.free[i]) <= LIMIT)
  {
    if i > 0 {
      var x := End(s.free[i]) - 1;
      assert Holds(s.free[i], x) && Holds(s.free[i], s.free[i].addr);
      assert Accounted(s, x) && Accounted(s, s.free[i].addr);
      var j :| 0 <= j < |s.arena| && Holds(s.arena[j], x);
      assert Placed(base, s.arena[j]);
    }
  }

  // --------------------------------------------------------------- arithmetic

  /** malloc's nunits, in 32-bit arithmetic. */
  function UnitsFor(nbytes: nat): (r: nat)
    requires nbytes < UINT
    ensures 1 <= r <= 0x2000_0000
  {
    (nbytes + UNIT - 1) % UINT / UNIT + 1
  }

  /** The block has room for the request exactly when nbytes + 7 does not wrap. */
  lemma Capacity(nbytes: nat)
    requires nbytes < UINT
    ensures UNIT * (UnitsFor(nbytes) - 1) >= nbytes <==> nbytes <= UINT - UNIT
    ensures nbytes <= UINT - UNIT ==> UNIT * (UnitsFor(nbytes) - 1) < nbytes + UNIT
  {
  }

  /** A request for all but one byte of the address space gets one unit, the header. */
  lemma NoRoom()
    ensures UnitsFor(0xFFFF_FFFF) == 1 && UNIT * (UnitsFor(0xFFFF_FFFF) - 1) == 0
  {
  }

  /** morecore asks for at least 4096 units. */
  function CoreUnits(n: nat): (r: nat) { if n < 4096 then 4096 else n }

  /** The byte count as sbrk's int argument receives it. */
  function SbrkArgument(units: nat): (r: int) {
    var x := units * UNIT % UINT;
    if x < 0x8000_0000 then x else x - UINT
  }

  /** sbrk is asked for the memory morecore then uses exactly below 2^28 units. */
  lemma SbrkArgumentRight(nbytes: nat)
    requires nbytes < UINT
    ensures var u := CoreUnits(UnitsFor(nbytes)); SbrkArgument(u) == u * UNIT <==> u < 0x1000_0000
  {
  }

  /** For a request of 2^31 bytes sbrk's argument is negative. */
  lemma SbrkNegative()
    ensures SbrkArgument(CoreUnits(UnitsFor(0x8000_0000))) == 8 - 0x8000_0000
  {
  }

  // ---------------------------------------------------------- pointer version

  datatype Header = Header(ptr: int, size: int)

  function Succ(f: seq<Block>, i: nat): (r: nat)
    requires i < |f|
    ensures r < |f|
  {
    if i + 1 == |f| then 0 else i + 1
  }

  /** Steps round the list from block i to block j. */
  function Dist(f: seq<Block>, i: nat, j: nat): (r: nat)
    requires i < |f| && j < |f|
    ensures r < |f| && (r == 0 <==> i == j)
  {
    if i <= j then j - i else j + |f| - i
  }

  predicate LinkAt(mem: map<int, Header>, f: seq<Block>, i: nat)
    requires i < |f|
  {
    f[i].addr in mem && mem[f[i].addr] == Header(f[Succ(f, i)].addr, f[i].size)
  }

  /** The headers in memory form the circular list f. */
  ghost predicate Linked(mem: map<int, Header>, f: seq<Block>) { forall i :: 0 <= i < |f| ==> LinkAt(mem, f, i) }

  /** What free does to the headers, given the list position p it found. */
  function Spliced(mem: map<int, Header>, p: int, bp: int): (r: map<int, Header>)
    requires p in mem && bp in mem && mem[p].ptr in mem
  {
    var q := mem[p].ptr;
    var m := if bp + UNIT * mem[bp].size == q
             then mem[bp := Header(mem[q].ptr, mem[bp].size + mem[q].size)]
             else mem[bp := Header(q, mem[bp].size)];
    if p + UNIT * m[p].size == bp then m[p := Header(m[bp].ptr, m[p].size + m[bp].size)]
    else m[p := Header(bp, m[p].size)]
  }

  predicate TouchesLeft(f: seq<Block>, k: nat, b: Block)
    requires k < |f|
  {
    End(f[k]) == b.addr
  }

  predicate TouchesRight(f: seq<Block>, k: nat, b: Block)
    requires k < |f|
  {
    k + 1 < |f| && End(b) == f[k + 1].addr
  }

  /** Join, element by element. */
  ghost predicate Joined(f: seq<Block>, k: nat, b: Block, g: seq<Block>)
    requires k < |f|
  {
    var left, right := TouchesLeft(f, k, b), TouchesRight(f, k, b);
    var size := if right then b.size + f[k + 1].size else b.size;
    && |g| == |f| + 1 - (if left then 1 else 0) - (if right then 1 else 0)
    && (forall i :: 0 <= i < k ==> g[i] == f[i])
    && g[k] == (if left then Block(f[k].addr, f[k].size + size) else f[k])
    && (!left ==> g[k + 1] == Block(b.addr, size))
    && (forall i :: k < i < |g| && (left || i > k + 1) ==> g[i] == f[Origin(left, right, i)])
  }

  function Origin(left: bool, right: bool, i: nat): int {
    i - (if left then 0 else 1) + (if right then 1 else 0)
  }

  lemma FirstMergeShape(f: seq<Block>, k: nat, b: Block, h: seq<Block>)
    requires k < |f| && h == MergeAt(InsertAt(f, k + 1, b), k + 1)
    ensures var right := TouchesRight(f, k, b);
      && |h| == |f| + (if right then 0 else 1)
      && (forall i :: 0 <= i <= k ==> h[i] == f[i])
      && h[k + 1] == Block(b.addr, if right then b.size + f[k + 1].size else b.size)
      && (forall i :: k + 1 < i < |h| ==> h[i] == f[if right then i else i - 1])
  {
  }

  lemma JoinShape(f: seq<Block>, k: nat, b: Block)
    requires k < |f|
    ensures Joined(f, k, b, Join(f, k, b))
  {
    var h := MergeAt(InsertAt(f, k + 1, b), k + 1);
    FirstMergeShape(f, k, b, h);
    SecondMergeShape(f, k, b, h, MergeAt(h, k));
  }

  lemma SecondMergeShape(f: seq<Block>, k: nat, b: Block, h: seq<Block>, g: seq<Block>)
    requires k < |f| && g == MergeAt(h, k)
    requires var right := TouchesRight(f, k, b);
      && |h| == |f| + (if right then 0 else 1)
      && (forall i :: 0 <= i <= k ==> h[i] == f[i])
      && h[k + 1] == Block(b.addr, if right then b.size + f[k + 1].size else b.size)
      && (forall i :: k + 1 < i < |h| ==> h[i] == f[if right then i else i - 1])
    ensures Joined(f, k, b, g)
  {
  }

  ghost predicate Splicing(mem: map<int, Header>, f: seq<Block>, k: nat, b: Block) {
    && k < |f| && b.addr in mem && mem[b.addr].size == b.size && b.addr != f[k].addr
    && LinkAt(mem, f, k) && LinkAt(mem, f, Succ(f, k)) && (k + 1 == |f| ==> End(b) != f[0].addr)
  }

  lemma SplicedAt(mem: map<int, Header>, f: seq<Block>, k: nat, b: Block, g: seq<Block>)
    requires Splicing(mem, f, k, b) && Joined(f, k, b, g)
    ensures LinkAt(Spliced(mem, f[k].addr, b.addr), g, k)
    ensures !TouchesLeft(f, k, b) ==> LinkAt(Spliced(mem, f[k].addr, b.addr), g, k + 1)
  {
  }

  lemma SplicedOther(mem: map<int, Header>, f: seq<Block>, k: nat, b: Block, g: seq<Block>, i: nat)
    requires Splicing(mem, f, k, b) && Joined(f, k, b, g) && i < |g| && i != k && (i == k + 1 ==> TouchesLeft(f, k, b))
    requires var j := if i < k then i else Origin(TouchesLeft(f, k, b), TouchesRight(f, k, b), i);
      LinkAt(mem, f, j) && f[j].addr != f[k].addr && f[j].addr != b.addr
    ensures LinkAt(Spliced(mem, f[k].addr, b.addr), g, i)
  {
  }

  /** The pointer surgery in free turns the list f into Join(f, k, b). */
  lemma JoinLinked(mem: map<int, Header>, f: seq<Block>, k: nat, b: Block)
    requires Linked(mem, f) && Sorted(f) && Between(f, k, b) && b.size >= 1
    requires f[0].addr < b.addr && b.addr in mem && mem[b.addr].size == b.size
    requires LinkAt(mem, f, k) && LinkAt(mem, f, Succ(f, k))
    ensures Linked(Spliced(mem, f[k].addr, b.addr), Join(f, k, b))
  {
    var g, m := Join(f, k, b), Spliced(mem, f[k].addr, b.addr);
    JoinShape(f, k, b);
    SplicedAt(mem, f, k, b, g);
    forall i | 0 <= i < |g| ensures LinkAt(m, g, i) {
      if i != k && (i == k + 1 ==> TouchesLeft(f, k, b)) {
        var j := if i < k then i else Origin(TouchesLeft(f, k, b), TouchesRight(f, k, b), i);
        assert LinkAt(mem, f, j);
        if j > k + 1 { assert Before(f, k + 1, j); }
        if j > k { assert Before(f, k, j); } else { assert Before(f, j, k); }
        SplicedOther(mem, f, k, b, g, i);
      }
    }
  }

  /** The guards of free's search loop: stop between two list blocks, or at the end. */
  predicate StopsAt(f: seq<Block>, i: nat, a: int)
    requires i < |f|
  {
    var p, q := f[i].addr, f[Succ(f, i)].addr;
    (a > p && a < q) || (p >= q && (a > p || a < q))
  }

  lemma StopIff(f: seq<Block>, k: nat, b: Block, i: nat)
    requires Sorted(f) && Between(f, k, b) && f[0].addr < b.addr && i < |f|
    ensures StopsAt(f, i, b.addr) <==> i == k
  {
    if i + 1 < k { assert Before(f, i + 1, k); }
    if i > k + 1 { assert Before(f, k + 1, i); }
    if i + 1 < |f| { assert Before(f, i, i + 1); } else if i > 0 { assert Before(f, 0, i); }
  }

  lemma FindPlace(f: seq<Block>, b: Block) returns (k: nat)
    requires Sorted(f) && f != [] && f[0].addr < b.addr && forall i :: 0 <= i < |f| ==> f[i].addr != b.addr
    ensures Between(f, k, b)
  {
    k := |f| - 1;
    while f[k].addr > b.addr
      invariant k < |f| && (k + 1 < |f| ==> b.addr < f[k + 1].addr)
      decreases k
    {
      k := k - 1;
    }
  }

  lemma DistSucc(f: seq<Block>, i: nat, j: nat)
    requires i < |f| && j < |f| && i != j
    ensures Dist(f, Succ(f, i), j) + 1 == Dist(f, i, j)
  {
  }

  lemma LinkedAt(mem: map<int, Header>, f: seq<Block>, i: nat)
    requires Linked(mem, f) && i < |f|
    ensures LinkAt(mem, f, i)
  {
  }

  lemma LinkedElsewhere(mem: map<int, Header>, m: map<int, Header>, f: seq<Block>, p: int)
    requires Linked(mem, f) && (forall i :: 0 <= i < |f| ==> f[i].addr != p) && p in m && m == mem[p := m[p]]
    ensures Linked(m, f)
  {
    forall i | 0 <= i < |f| ensures LinkAt(m, f, i) { LinkedAt(mem, f, i); }
  }

  ghost predicate SameSizes(mem: map<int, Header>, m: map<int, Header>, p: int, q: int) {
    forall a :: a in mem && a != p && a != q ==> a in m && m[a].size == mem[a].size
  }

  lemma HeadersKept(mem: map<int, Header>, m: map<int, Header>, live: map<int, int>, bp: int, p: int)
    requires LiveHeaders(mem, live) && SameSizes(mem, m, bp, p) && p !in live
    ensures LiveHeaders(m, live - {bp}) && (bp !in live ==> LiveHeaders(m, live))
  {
  }

  lemma FreeNotLive(base: int, s: State, i: nat)
    requires Inv(base, s) && i < |s.free|
    ensures s.free[i].addr !in s.live
  {
    var a := s.free[i].addr;
    if a in s.live {
      LivePlaced(base, s, a);
      LiveNotFree(base, s, a, i);
    }
  }

  ghost predicate LiveHeaders(mem: map<int, Header>, live: map<int, int>) {
    forall a :: a in live ==> a in mem && mem[a].size == live[a]
  }

  /** What malloc does to the headers: p is the block found, prevp the one before. */
  function Carved(mem: map<int, Header>, prevp: int, p: int, n: int): (r: map<int, Header>)
    requires p in mem && prevp in mem
  {
    if mem[p].size == n then mem[prevp := Header(mem[p].ptr, mem[prevp].size)]
    else
      var q := p + UNIT * (mem[p].size - n);
      mem[p := Header(mem[p].ptr, mem[p].size - n)][q := Header(if q in mem then mem[q].ptr else 0, n)]
  }

  lemma CutHeaders(mem: map<int, Header>, f: seq<Block>, live: map<int, int>, i: nat, n: int)
    requires LiveHeaders(mem, live) && 0 < i < |f| && LinkAt(mem, f, i) && LinkAt(mem, f, i - 1)
    requires f[i].addr !in live && f[i - 1].addr !in live && f[i - 1].addr != f[i].addr
    ensures LiveHeaders(Carved(mem, f[i - 1].addr, f[i].addr, n), live[Tail(f[i], n).addr := n])
  {
  }

  lemma CutLinked(mem: map<int, Header>, f: seq<Block>, i: nat, n: int)
    requires Linked(mem, f) && Sorted(f) && 0 < i && Fits(f, i, n) && n >= 1
    requires LinkAt(mem, f, i) && LinkAt(mem, f, i - 1)
    ensures Linked(Carved(mem, f[i - 1].addr, f[i].addr, n), Cut(f, i, n))
  {
    var g, m := Cut(f, i, n), Carved(mem, f[i - 1].addr, f[i].addr, n);
    forall j | 0 <= j < |g| ensures LinkAt(m, g, j) {
      var j' := if f[i].size == n && j >= i then j + 1 else j;
      LinkedAt(mem, f, j');
      if j' > i { assert Before(f, i, j'); } else if j' < i { assert Before(f, j', i); }
      if j' < i - 1 { assert Before(f, j', i - 1); } else if j' > i - 1 { assert Before(f, i - 1, j'); }
    }
  }

  lemma JoinFits(f: seq<Block>, k: nat, b: Block) returns (w: nat)
    requires Sorted(f) && k < |f|
    ensures Fits(Join(f, k, b), w, b.size)
  {
    JoinShape(f, k, b);
    w := if TouchesLeft(f, k, b) then k else k + 1;
  }

  /** Block x has been looked at by a search that started after block `from` and has
      come to block i. */
  predicate Passed(f: seq<Block>, from: nat, i: nat, x: nat) {
    x < |f| && if i > from then from < x < i else x > from || x < i
  }

  /** Block i is the first after `from`, going round, with n units. */
  ghost predicate FirstFit(f: seq<Block>, from: nat, i: nat, n: int) {
    Fits(f, i, n) && forall x :: Passed(f, from, i, x) ==> !Fits(f, x, n)
  }

  lemma PassedNext(f: seq<Block>, from: nat, i: nat, x: nat)
    requires from < |f| && i < |f| && i != from
    ensures Passed(f, from, Succ(f, i), x) <==> Passed(f, from, i, x) || x == i
  {
  }

  lemma PassedAll(f: seq<Block>, from: nat, n: int)
    requires from < |f| && !Fits(f, from, n) && forall x :: Passed(f, from, from, x) ==> !Fits(f, x, n)
    ensures NoneFits(f, n)
  {
    forall i | 0 <= i < |f| ensures !Fits(f, i, n) {
      if i != from { assert Passed(f, from, from, i); }
    }
  }

  ghost predicate NoneFits(f: seq<Block>, n: int) { forall i :: 0 <= i < |f| ==> !Fits(f, i, n) }

  /** malloc's answer. After Wild, a header was written outside the memory obtained:
      sbrk had been asked for a wrapped number of bytes. */
  datatype Reply = Null | Pointer(p: int) | Wild

  /** The state malloc searches: the list is set up on the first call. */
  ghost function Ready(base: int, s: State): State { if s.free == [] then Start(base) else s }

  /** The last n units of block i of s are given out, and the roving pointer is left at
      the block before it: t is the state after that, and r the answer. */
  ghost predicate Given(s: State, i: nat, n: nat, t: State, to: nat, r: Reply) {
    0 < i < |s.free| && t == CutBlock(s, i, n) && to == i - 1 && r == Pointer(End(s.free[i]) - UNIT * n + UNIT)
  }

  /** The outcome of malloc on state s: the roving pointer goes from block `from` to
      block `to`, and the first fit after it is cut, in s or, if no block of s is large
      enough, once memory has been added after some block k. */
  ghost predicate Outcome(s: State, from: nat, n: nat, answer: Option<int>, t: State, to: nat, r: Reply) {
    if !NoneFits(s.free, n) then exists i: nat :: FirstFit(s.free, from, i, n) && Given(s, i, n, t, to, r)
    else if answer.None? then r == Null && t == s && to == from
    else if CoreUnits(n) >= 0x1000_0000 then r == Wild
    else
      exists k: nat, i: nat, g: State ::
        Grew(s, n, answer, g, k) && FirstFit(g.free, k, i, n) && Given(g, i, n, t, to, r)
  }

  /** First time round: what has been passed was too small. */
  ghost predicate Searching(s: State, from: nat, n: nat, t: State, at: nat, i: nat) {
    t == s && at == from < |s.free| && forall x :: Passed(s.free, from, i, x) ==> !Fits(s.free, x, n)
  }

  /** Second time round: the new memory made block w large enough, and it comes no
      later than the block the search would stop at. */
  ghost predicate Growing(s: State, n: nat, answer: Option<int>, t: State, at: nat, i: nat, k: nat, w: nat) {
    && Grew(s, n, answer, t, k) && i < |t.free| && at == k < |t.free|
    && (forall x :: Passed(t.free, k, i, x) ==> !Fits(t.free, x, n))
    && Fits(t.free, w, n) && Dist(t.free, i, w) <= Dist(t.free, i, at)
  }

  ghost predicate Grew(s: State, n: nat, answer: Option<int>, t: State, k: nat) {
    && NoneFits(s.free, n) && answer.Some? && CoreUnits(n) < 0x1000_0000
    && Between(s.free, k, Block(answer.value, CoreUnits(n))) && t == Grow(s, k, Block(answer.value, CoreUnits(n)))
  }

  lemma SearchNext(s: State, from: nat, n: nat, i: nat)
    requires i < |s.free| && Searching(s, from, n, s, from, i) && !Fits(s.free, i, n)
    ensures i != from ==> Searching(s, from, n, s, from, Succ(s.free, i))
    ensures i == from ==> NoneFits(s.free, n)
  {
    if i == from { PassedAll(s.free, from, n); } else {
      forall x: nat | Passed(s.free, from, Succ(s.free, i), x) ensures !Fits(s.free, x, n) { PassedNext(s.free, from, i, x); }
    }
  }

  lemma GrowStart(s: State, n: nat, answer: Option<int>, t: State, k: nat) returns (w: nat)
    requires Grew(s, n, answer, t, k) && Sorted(s.free) && k < |t.free|
    ensures Growing(s, n, answer, t, k, Succ(t.free, k), k, w)
  {
    w := JoinFits(s.free, k, Block(answer.value, CoreUnits(n)));
  }

  /** The search meets block w before it comes round: morecore is not called again. */
  lemma GrowNext(s: State, n: nat, answer: Option<int>, t: State, at: nat, i: nat, k: nat, w: nat)
    requires Growing(s, n, answer, t, at, i, k, w) && !Fits(t.free, i, n)
    ensures i != at && Growing(s, n, answer, t, at, Succ(t.free, i), k, w)
  {
    DistSucc(t.free, i, w);
    if i != at {
      DistSucc(t.free, i, at);
      forall x: nat | Passed(t.free, k, Succ(t.free, i), x) ensures !Fits(t.free, x, n) { PassedNext(t.free, k, i, x); }
    }
  }

  lemma SameIndex(f: seq<Block>, i: nat, j: nat)
    requires Sorted(f) && i < |f| && j < |f|
    ensures f[i].addr == f[j].addr <==> i == j
  {
    if i < j { assert Before(f, i, j); } else if j < i { assert Before(f, j, i); }
  }

  lemma SearchFound(s: State, from: nat, n: nat, answer: Option<int>, i: nat, t: State, to: nat, r: Reply)
    requires Searching(s, from, n, s, from, i) && Fits(s.free, i, n) && Given(s, i, n, t, to, r)
    ensures Outcome(s, from, n, answer, t, to, r)
  {
    assert FirstFit(s.free, from, i, n);
  }

  lemma GrowFound(s: State, from: nat, n: nat, answer: Option<int>, g: State, k: nat, i: nat, t: State, to: nat, r: Reply)
    requires Grew(s, n, answer, g, k) && FirstFit(g.free, k, i, n) && Given(g, i, n, t, to, r)
    ensures Outcome(s, from, n, answer, t, to, r)
  {
  }

  /** The block after the roving pointer is the first one looked at. */
  lemma NextFits(f: seq<Block>, from: nat, i: nat, n: int)
    requires FirstFit(f, from, i, n) && Fits(f, from + 1, n)
    ensures i == from + 1
  {
    assert !Passed(f, from, i, from + 1);
  }

  /** The block that malloc cut, if any of it is left, comes right after the roving
      pointer and ends where the units given out begin; otherwise its successors do. */
  lemma GivenRest(s: State, i: nat, n: nat, t: State, to: nat, r: Reply)
    requires Given(s, i, n, t, to, r) && s.free[i].size >= n
    ensures s.free[i].size > n ==> t.free[to + 1..] == [Block(s.free[i].addr, s.free[i].size - n)] + s.free[i + 1..]
    ensures s.free[i].size > n ==> End(t.free[to + 1]) == r.p - UNIT
    ensures s.free[i].size == n ==> t.free[to + 1..] == s.free[i + 1..] && s.free[i].addr == r.p - UNIT
    ensures t.free[..to + 1] == s.free[..i]
  {
  }

  /** Two calls of malloc: the second looks first at the block after the one before the
      first one's cut, so while that has enough units the second cuts it too; if it is
      what the first left, its answer lies just below the first. */
  lemma MallocTwice(s: State, from: nat, n: nat, answer: Option<int>, t: State, at: nat, r: Reply,
                    m: nat, answer': Option<int>, u: State, to: nat, r': Reply)
    requires Outcome(s, from, n, answer, t, at, r) && r.Pointer? && n >= 1
    requires Outcome(t, at, m, answer', u, to, r') && m >= 1 && Fits(t.free, at + 1, m)
    ensures Given(t, at + 1, m, u, to, r') && to == at && u.arena == t.arena
    ensures End(t.free[at + 1]) == r.p - UNIT ==> r' == Pointer(r.p - UNIT * m)
  {
    var i: nat :| FirstFit(t.free, at, i, m) && Given(t, i, m, u, to, r');
    NextFits(t.free, at, i, m);
  }

  /** After free has put block a after block k, untouched by it, malloc starts there and
      gives out the end of the block that a has become part of. */
  lemma MallocFreed(s: State, k: nat, a: int, n: nat, answer: Option<int>, t: State, to: nat, r: Reply)
    requires a in s.live && k < |s.free| && !TouchesLeft(s.free, k, Block(a, s.live[a])) && 1 <= n <= s.live[a]
    requires Sorted(s.free) && Outcome(FreeBlock(s, k, a), k, n, answer, t, to, r)
    ensures to == k && r == Pointer((if TouchesRight(s.free, k, Block(a, s.live[a])) then End(s.free[k + 1])
                                     else a + UNIT * s.live[a]) - UNIT * n + UNIT)
  {
    var g, b := FreeBlock(s, k, a).free, Block(a, s.live[a]);
    JoinShape(s.free, k, b);
    assert Fits(g, k + 1, n);
    var i: nat :| FirstFit(g, k, i, n) && Given(FreeBlock(s, k, a), i, n, t, to, r);
    NextFits(g, k, i, n);
  }

  class Allocator {
    const base: int
    var mem: map<int, Header>
    var freep: int
    ghost var free: seq<Block>
    ghost var live: map<int, int>
    ghost var arena: seq<Block>
    ghost var at: nat

    ghost function Abs(): State
      reads this
    {
      State(free, live, arena)
    }

    /** freep points at block `at` of the list. */
    ghost predicate Threaded()
      reads this
    {
      Sorted(free) && Linked(mem, free) && at < |free| && free[at].addr == freep && free[0].addr == base
    }

    ghost predicate Valid()
      reads this
    {
      && Inv(base, Abs()) && LiveHeaders(mem, live)
      && (freep == 0 <==> free == []) && (freep != 0 ==> Threaded())
    }

    constructor (address: int)
      requires 0 < address
      ensures Valid() && base == address && Abs() == State([], map[], [])
    {
      base, mem, freep := address, map[], 0;
      free, live, arena, at := [], map[], [], 0;
      StartInv(address);
    }

    /** free's search loop: it ends at the block after which b belongs, because every
        step is one nearer to it round the list. */
    method Search(bp: int, ghost b: Block) returns (p: int, ghost k: nat)
      requires Threaded() && b.addr == bp && base < bp && forall i :: 0 <= i < |free| ==> free[i].addr != bp
      ensures Between(free, k, b) && p == free[k].addr
    {
      k := FindPlace(free, b);
      p := freep;
      ghost var i: nat := at;
      LinkedAt(mem, free, i);
      StopIff(free, k, b, i);
      while !(bp > p && bp < mem[p].ptr)
        invariant i < |free| && p == free[i].addr && LinkAt(mem, free, i)
        invariant StopsAt(free, i, bp) <==> i == k
        decreases Dist(free, i, k)
      {
        if p >= mem[p].ptr && (bp > p || bp < mem[p].ptr) {
          break;
        }
        DistSucc(free, i, k);
        p := mem[p].ptr;
        i := Succ(free, i);
        LinkedAt(mem, free, i);
        StopIff(free, k, b, i);
      }
    }

    /** free, for a block bp of any origin. */
    method Splice(bp: int, ghost b: Block) returns (ghost k: nat)
      requires Threaded() && b.addr == bp && base < bp && b.size >= 1 && bp in mem && mem[bp].size == b.size
      requires forall i :: 0 <= i < |free| ==> free[i].addr != bp
      modifies this`mem, this`freep, this`free, this`at
      ensures Between(old(free), k, b) && free == Join(old(free), k, b)
      ensures at == k < |free| && freep == free[k].addr == old(free)[k].addr && Linked(mem, free)
      ensures SameSizes(old(mem), mem, bp, freep)
    {
      var p: int;
      p, k := Search(bp, b);
      LinkedAt(mem, free, k);
      LinkedAt(mem, free, Succ(free, k));
      JoinLinked(mem, free, k, b);
      JoinShape(free, k, b);
      var q := mem[p].ptr;
      if bp + UNIT * mem[bp].size == q {
        mem := mem[bp := Header(mem[q].ptr, mem[bp].size + mem[q].size)];
      } else {
        mem := mem[bp := Header(q, mem[bp].size)];
      }
      if p + UNIT * mem[p].size == bp {
        mem := mem[p := Header(mem[bp].ptr, mem[p].size + mem[bp].size)];
      } else {
        mem := mem[p := Header(bp, mem[p].size)];
      }
      assert mem == Spliced(old(mem), old(free)[k].addr, bp);
      freep := p;
      free, at := Join(free, k, b), k;
    }

    method Free(ap: int) returns (ghost k: nat)
      requires Valid() && ap - UNIT in live
      modifies this
      ensures Valid() && k < |old(free)| && Between(old(free), k, Block(ap - UNIT, old(live)[ap - UNIT]))
      ensures Abs() == FreeBlock(old(Abs()), k, ap - UNIT)
      ensures at == k && freep == old(free)[k].addr
    {
      var bp := ap - UNIT;
      ghost var s := Abs();
      LivePlaced(base, s, bp);
      forall i | 0 <= i < |free| ensures free[i].addr != bp { FreeNotLive(base, s, i); }
      k := Splice(bp, Block(bp, live[bp]));
      FreeNotLive(base, s, k);
      HeadersKept(old(mem), mem, live, bp, freep);
      live := live - {bp};
      FreeInv(base, s, k, bp);
      assert Abs() == FreeBlock(s, k, bp);
      SizesFit(base, Abs(), k);
    }

    /** morecore, where `answer` is what sbrk returns, None for -1. */
    method MoreCore(nu: nat, answer: Option<int>) returns (p: int, ghost k: nat)
      requires Valid() && free != []
      requires answer.Some? ==> Fresh(base, Abs(), Block(answer.value, CoreUnits(nu)))
      modifies this
      ensures Valid() && k < |old(free)|
      ensures answer.None? ==> p == 0 && Abs() == old(Abs()) && freep == old(freep) && at == old(at)
      ensures answer.Some? ==> var b := Block(answer.value, CoreUnits(nu));
        p == freep != 0 && at == k && Between(old(free), k, b) && Abs() == Grow(old(Abs()), k, b)
    {
      k := 0;
      if answer.None? {
        return 0, k;
      }
      ghost var s, b := Abs(), Block(answer.value, CoreUnits(nu));
      FreshElsewhere(base, s, b);
      k := AddCore(answer.value, CoreUnits(nu));
      FreeNotLive(base, s, k);
      HeadersKept(old(mem), mem, live, answer.value, freep);
      arena := arena + [b];
      GrowInv(base, s, k, b);
      assert Abs() == Grow(s, k, b);
      SizesFit(base, Abs(), k);
      p := freep;
    }

    /** morecore's header for the new memory, handed to free. */
    method AddCore(hp: int, units: nat) returns (ghost k: nat)
      requires Threaded() && base < hp && units >= 1 && forall i :: 0 <= i < |free| ==> free[i].addr != hp
      modifies this`mem, this`freep, this`free, this`at
      ensures Between(old(free), k, Block(hp, units)) && free == Join(old(free), k, Block(hp, units))
      ensures at == k < |free| && freep == free[k].addr == old(free)[k].addr && Linked(mem, free)
      ensures SameSizes(old(mem), mem, hp, freep)
    {
      mem := mem[hp := Header(if hp in mem then mem[hp].ptr else 0, units)];
      LinkedElsewhere(old(mem), mem, free, hp);
      k := Splice(hp, Block(hp, units));
    }

    /** The first call makes `base` a list of its own. */
    method Init()
      requires Valid()
      modifies this
      ensures Valid() && Abs() == Ready(base, old(Abs())) && free != [] && freep != 0
      ensures at == if old(free) == [] then 0 else old(at)
    {
      if freep == 0 {
        StartInv(base);
        mem := mem[base := Header(base, 0)];
        freep := base;
        free, at := [Block(base, 0)], 0;
        assert LinkAt(mem, free, 0);
      }
    }

    /** malloc's last steps: block i, at p, is large enough. */
    method Carve(prevp: int, p: int, n: nat, ghost i: nat) returns (r: int)
      requires Valid() && 0 < i < |free| && p == free[i].addr && prevp == free[i - 1].addr && n >= 1 && Fits(free, i, n)
      modifies this
      ensures Valid() && Given(old(Abs()), i, n, Abs(), at, Pointer(r)) && freep == prevp
    {
      hide Inv, Fits, Linked;
      ghost var s := Abs();
      LinkedAt(mem, free, i);
      LinkedAt(mem, free, i - 1);
      CutLinked(mem, free, i, n);
      CutInv(base, s, i, n);
      TailUnused(base, s, i, n);
      FreeNotLive(base, s, i);
      FreeNotLive(base, s, i - 1);
      assert Before(free, i - 1, i);
      CutHeaders(mem, free, live, i, n);
      var q := p;
      if mem[p].size == n {
        mem := mem[prevp := Header(mem[p].ptr, mem[prevp].size)];
      } else {
        mem := mem[p := Header(mem[p].ptr, mem[p].size - n)];
        q := p + UNIT * mem[p].size;
        mem := mem[q := Header(if q in mem then mem[q].ptr else 0, n)];
      }
      assert mem == Carved(old(mem), prevp, p, n);
      freep := prevp;
      r := q + UNIT;
      free, live, at := Cut(free, i, n), live[q := n], i - 1;
      assert Abs() == CutBlock(s, i, n);
      SizesFit(base, Abs(), at);
    }
  
    /** malloc's search. It goes round at most once before and once after the call of
        morecore; g is the state in which block i was found. */
    method Allocate(n: nat, answer: Option<int>) returns (r: Reply, ghost calls: nat, ghost g: State, ghost i: nat, ghost k: nat)
      requires Valid() && free != [] && n >= 1
      requires answer.Some? && CoreUnits(n) < 0x1000_0000 ==> Fresh(base, Abs(), Block(answer.value, CoreUnits(n)))
      modifies this
      ensures !r.Wild? ==> Valid()
      ensures r.Pointer? ==> Fits(g.free, i, n) && Given(g, i, n, Abs(), at, r) && freep == g.free[i - 1].addr
      ensures r.Pointer? && calls == 0 ==> Searching(old(Abs()), old(at), n, g, old(at), i)
      ensures r.Pointer? && calls != 0 ==> Grew(old(Abs()), n, answer, g, k) && FirstFit(g.free, k, i, n)
      ensures r.Null? ==> NoneFits(old(free), n) && answer.None? && Abs() == old(Abs()) && calls == 1
      ensures r.Null? ==> at == old(at) && freep == old(freep)
      ensures r.Wild? ==> NoneFits(old(free), n) && answer.Some? && CoreUnits(n) >= 0x1000_0000
      ensures calls <= 1
    {
      hide Inv, Fresh, CutBlock, LiveHeaders, Grew, Given, NoneFits, Linked, End, CoreUnits;
      var prevp := freep;
      calls := 0;
      ghost var s, from := Abs(), at;
      ghost var j: nat := at;
      i, k := Succ(free, at), 0;
      LinkedAt(mem, free, j);
      var p := mem[prevp].ptr;
      ghost var w: nat := 0;
      while true
        invariant Valid() && free != [] && j < |free| && i < |free| && i == Succ(free, j)
        invariant p == free[i].addr && prevp == free[j].addr
        invariant calls == 0 ==> Searching(s, from, n, Abs(), at, i)
        invariant calls == 1 ==> Growing(s, n, answer, Abs(), at, i, k, w)
        invariant calls <= 1
        decreases 1 - calls, Dist(free, i, at)
      {
        g := Abs();
        LinkedAt(mem, free, i);
        if mem[p].size >= n {
          assert i > 0 && j == i - 1;
          var q := Carve(prevp, p, n, i);
          r := Pointer(q);
          return;
        }
        SameIndex(free, i, at);
        if calls == 0 { SearchNext(s, from, n, i); } else { GrowNext(s, n, answer, g, at, i, k, w); }
        if p == freep {
          if answer.Some? && CoreUnits(n) >= 0x1000_0000 {
            r := Wild;
            return;
          }
          p, k := MoreCore(n, answer);
          calls := calls + 1;
          if p == 0 {
            r := Null;
            return;
          }
          i := at;
          w := GrowStart(s, n, answer, Abs(), k);
        } else {
          DistSucc(free, i, at);
        }
        prevp, j := p, i;
        LinkedAt(mem, free, i);
        p := mem[p].ptr;
        i := Succ(free, i);
      }
    }

    /** malloc. `answer` is what sbrk returns if morecore has to call it, which it does
        at most once, and exactly when no free block is large enough. */
    method Malloc(nbytes: nat, answer: Option<int>) returns (r: Reply, ghost calls: nat)
      requires Valid() && nbytes < UINT
      requires answer.Some? && CoreUnits(UnitsFor(nbytes)) < 0x1000_0000 ==>
        Fresh(base, Abs(), Block(answer.value, CoreUnits(UnitsFor(nbytes))))
      modifies this
      ensures !r.Wild? ==> Valid()
      ensures Outcome(Ready(base, old(Abs())), if old(free) == [] then 0 else old(at), UnitsFor(nbytes), answer, Abs(), at, r)
      ensures !r.Wild? ==> at < |free| && freep == free[at].addr
      ensures r.Pointer? && calls == 0 ==> arena == Ready(base, old(Abs())).arena
      ensures r.Pointer? && calls == 1 ==>
        var n := UnitsFor(nbytes);
        answer.Some? && arena == Ready(base, old(Abs())).arena + [Block(answer.value, if n < 4096 then 4096 else n)]
      ensures !r.Wild? ==> calls == if NoneFits(Ready(base, old(Abs())).free, UnitsFor(nbytes)) then 1 else 0
    {
      hide Inv;
      Init();
      ghost var s, from := Abs(), at;
      ghost var g, i, k;
      r, calls, g, i, k := Allocate(UnitsFor(nbytes), answer);
      if r.Pointer? {
        if calls == 0 {
          SearchFound(s, from, UnitsFor(nbytes), answer, i, Abs(), at, r);
        } else {
          GrowFound(s, from, UnitsFor(nbytes), answer, g, k, i, Abs(), at, r);
        }
      }
    }
  }
}
