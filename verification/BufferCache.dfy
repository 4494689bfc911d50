/** The buffer cache (bio.c) over the in-memory disk (memide.c). The bodies here run
    under bcache.lock or on a busy buffer that only its holder touches, so a run of
    the system is a sequence of these calls. */
module BufferCache {

  type Data = seq<int>

  /** The device number of a buffer never used, and the one disk. */
  const NODEV: int := 0xffff_ffff
  const DISK: int := 1

  datatype Buf = Buf(busy: bool, valid: bool, dirty: bool, dev: int, sector: nat, data: Data)

  // ------------------------------------------------------------ the LRU list

  function Succ(ring: seq<nat>, i: nat): (r: nat)
    requires i < |ring|
    ensures r < |ring|
  {
    if i + 1 == |ring| then 0 else i + 1
  }

  predicate LinkAt(next: seq<nat>, prev: seq<nat>, ring: seq<nat>, i: nat)
    requires i < |ring|
  {
    var a, b := ring[i], ring[Succ(ring, i)];
    a < |next| && b < |prev| && next[a] == b && prev[b] == a
  }

  /** The pointers form one circular doubly linked list visiting `ring` in order. */
  ghost predicate Linked(next: seq<nat>, prev: seq<nat>, ring: seq<nat>) {
    forall i :: 0 <= i < |ring| ==> LinkAt(next, prev, ring, i)
  }

  predicate Differ(ring: seq<nat>, i: nat, j: nat)
    requires i < |ring| && j < |ring|
  {
    ring[i] != ring[j]
  }

  ghost predicate Injective(ring: seq<nat>) { forall i, j :: 0 <= i < j < |ring| ==> Differ(ring, i, j) }

  ghost predicate Member(ring: seq<nat>, b: nat) { exists i :: 0 <= i < |ring| && ring[i] == b }

  /** `ring` lists the head, numbered n, and then each of the buffers below n once. */
  ghost predicate Permutation(ring: seq<nat>, n: nat) {
    && |ring| == n + 1 && ring[0] == n && Injective(ring)
    && (forall i :: 0 <= i < |ring| ==> ring[i] <= n) && (forall b: nat :: b <= n ==> Member(ring, b))
  }

  function Without(ring: seq<nat>, k: nat): (r: seq<nat>)
    requires k < |ring|
    ensures |r| == |ring| - 1
  {
    seq(|ring| - 1, i requires 0 <= i < |ring| - 1 => if i < k then ring[i] else ring[i + 1])
  }

  /** b right after the head. */
  function InFront(ring: seq<nat>, b: nat): (r: seq<nat>)
    requires ring != []
    ensures |r| == |ring| + 1
  {
    seq(|ring| + 1, i requires 0 <= i <= |ring| => if i == 0 then ring[0] else if i == 1 then b else ring[i - 1])
  }

  function ToFront(ring: seq<nat>, k: nat): (r: seq<nat>)
    requires 0 < k < |ring|
  {
    InFront(Without(ring, k), ring[k])
  }

  lemma LinkedAt(next: seq<nat>, prev: seq<nat>, ring: seq<nat>, i: nat)
    requires Linked(next, prev, ring) && i < |ring|
    ensures LinkAt(next, prev, ring, i)
  {
  }

  lemma DifferAt(ring: seq<nat>, i: nat, j: nat)
    requires Injective(ring) && i < |ring| && j < |ring| && i != j
    ensures ring[i] != ring[j]
  {
    if i < j { assert Differ(ring, i, j); } else { assert Differ(ring, j, i); }
  }

  lemma RingBelow(ring: seq<nat>, n: nat)
    requires Permutation(ring, n)
    ensures forall k :: 1 <= k <= n ==> ring[k] < n
  {
    forall k | 1 <= k <= n ensures ring[k] < n { DifferAt(ring, 0, k); }
  }

  /** brelse, first half: take block k out of the list. */
  lemma UnlinkLinked(next: seq<nat>, prev: seq<nat>, ring: seq<nat>, k: nat)
    requires Linked(next, prev, ring) && Injective(ring) && 0 < k < |ring|
    requires LinkAt(next, prev, ring, k - 1) && LinkAt(next, prev, ring, k)
    ensures Linked(next[ring[k - 1] := next[ring[k]]], prev[next[ring[k]] := ring[k - 1]], Without(ring, k))
  {
    var n', p' := next[ring[k - 1] := next[ring[k]]], prev[next[ring[k]] := ring[k - 1]];
    var r := Without(ring, k);
    forall i | 0 <= i < |r| ensures LinkAt(n', p', r, i) {
      var j := if i < k then i else i + 1;
      LinkedAt(next, prev, ring, j);
      if j != k - 1 {
        DifferAt(ring, j, k - 1);
        DifferAt(ring, j, k);
        DifferAt(ring, Succ(ring, j), Succ(ring, k));
      }
    }
  }

  /** brelse, second half, and binit: put b in right after the head. */
  lemma InsertLinked(next: seq<nat>, prev: seq<nat>, ring: seq<nat>, b: nat)
    requires Linked(next, prev, ring) && Injective(ring) && ring != [] && LinkAt(next, prev, ring, 0)
    requires b < |next| == |prev| && (forall i :: 0 <= i < |ring| ==> ring[i] != b)
    ensures var h := ring[0]; Linked(next[b := next[h]][h := b], prev[b := h][next[h] := b], InFront(ring, b))
  {
    var h := ring[0];
    var n', p', r := next[b := next[h]][h := b], prev[b := h][next[h] := b], InFront(ring, b);
    forall i | 0 <= i < |r| ensures LinkAt(n', p', r, i) {
      if i >= 1 {
        LinkedAt(next, prev, ring, i - 1);
        if i >= 2 {
          DifferAt(ring, i - 1, 0);
          DifferAt(ring, Succ(ring, i - 1), Succ(ring, 0));
        }
      }
    }
  }

  lemma WithoutInjective(ring: seq<nat>, k: nat)
    requires Injective(ring) && k < |ring|
    ensures Injective(Without(ring, k)) && forall i :: 0 <= i < |ring| - 1 ==> Without(ring, k)[i] != ring[k]
  {
    var r := Without(ring, k);
    forall i, j | 0 <= i < j < |r| ensures Differ(r, i, j) {
      DifferAt(ring, if i < k then i else i + 1, if j < k then j else j + 1);
    }
    forall i | 0 <= i < |r| ensures r[i] != ring[k] { DifferAt(ring, if i < k then i else i + 1, k); }
  }

  lemma InFrontInjective(ring: seq<nat>, b: nat)
    requires Injective(ring) && ring != [] && forall i :: 0 <= i < |ring| ==> ring[i] != b
    ensures Injective(InFront(ring, b))
  {
    var r := InFront(ring, b);
    forall i, j | 0 <= i < j < |r| ensures Differ(r, i, j) {
      if i != 1 && j != 1 { DifferAt(ring, if i == 0 then 0 else i - 1, j - 1); }
    }
  }

  lemma ToFrontPermutation(ring: seq<nat>, n: nat, k: nat)
    requires Permutation(ring, n) && 0 < k < |ring|
    ensures Permutation(ToFront(ring, k), n)
  {
    WithoutInjective(ring, k);
    InFrontInjective(Without(ring, k), ring[k]);
    var r := ToFront(ring, k);
    forall b: nat | b <= n ensures Member(r, b) {
      assert Member(ring, b);
      var i :| 0 <= i < |ring| && ring[i] == b;
      assert r[if i == 0 then 0 else if i == k then 1 else if i < k then i + 1 else i] == b;
    }
  }

  // ---------------------------------------------------------- least recently used

  predicate Newer(ring: seq<nat>, released: seq<int>, i: nat, j: nat)
    requires i < |ring| && j < |ring|
  {
    ring[i] < |released| && ring[j] < |released| && released[ring[i]] > released[ring[j]]
  }

  /** The list is in order of the time of the last brelse, latest first. */
  ghost predicate ByRelease(ring: seq<nat>, released: seq<int>, clock: int) {
    && (forall i, j :: 1 <= i < j < |ring| ==> Newer(ring, released, i, j))
    && (forall b :: 0 <= b < |released| ==> released[b] < clock)
  }

  lemma ReleaseOrder(ring: seq<nat>, n: nat, released: seq<int>, clock: int, k: nat)
    requires Permutation(ring, n) && ByRelease(ring, released, clock) && |released| == n && 0 < k < |ring|
    ensures ring[k] < n && ByRelease(ToFront(ring, k), released[ring[k] := clock], clock + 1)
  {
    DifferAt(ring, 0, k);
    var r, t := ToFront(ring, k), released[ring[k] := clock];
    forall i, j | 1 <= i < j < |r| ensures Newer(r, t, i, j) {
      var j' := if j <= k then j - 1 else j;
      DifferAt(ring, j', k);
      DifferAt(ring, j', 0);
      if i > 1 {
        var i' := if i <= k then i - 1 else i;
        DifferAt(ring, i', k);
        assert Newer(ring, released, i', j');
      }
    }
  }

  lemma InitialRing(ring: seq<nat>, n: nat, released: seq<int>)
    requires |ring| == n + 1 && |released| == n
    requires (forall i :: 0 <= i <= n ==> ring[i] == n - i) && (forall b :: 0 <= b < n ==> released[b] == b)
    ensures Permutation(ring, n) && ByRelease(ring, released, n)
  {
    forall b: nat | b <= n ensures Member(ring, b) { assert ring[n - b] == b; }
  }

  // ---------------------------------------------------------------- contents

  /** What a reader without a cache would see: the disk, overlaid with the writes that
      are in the log but not yet at home. */
  function Seen(disk: seq<Data>, logged: map<nat, Data>, sector: nat): (r: Data)
    requires sector < |disk|
  {
    if sector in logged then logged[sector] else disk[sector]
  }

  predicate BufOk(b: Buf, disk: seq<Data>, logged: map<nat, Data>) {
    && (b.valid ==> b.dev == DISK && b.sector < |disk| && (b.dirty <==> b.sector in logged))
    && (b.dirty ==> b.valid)
    && (b.valid && !b.busy ==> b.data == Seen(disk, logged, b.sector))
  }

  predicate SameBlock(b: Buf, dev: int, sector: nat) { b.dev == dev && b.sector == sector }

  predicate Apart(bufs: seq<Buf>, i: nat, j: nat)
    requires i < |bufs| && j < |bufs|
  {
    bufs[i].dev == NODEV || !SameBlock(bufs[i], bufs[j].dev, bufs[j].sector)
  }

  ghost predicate Pinned(bufs: seq<Buf>, sector: nat) {
    exists b :: 0 <= b < |bufs| && bufs[b].dirty && bufs[b].sector == sector
  }

  /** No block is cached twice, every unheld buffer shows what `Seen` says, and every
      logged write is still in a dirty buffer. */
  ghost predicate Contents(bufs: seq<Buf>, disk: seq<Data>, logged: map<nat, Data>) {
    && (forall b :: 0 <= b < |bufs| ==> BufOk(bufs[b], disk, logged))
    && (forall i, j :: 0 <= i < j < |bufs| ==> Apart(bufs, i, j))
    && (forall s :: s in logged ==> s < |disk| && Pinned(bufs, s))
  }

  lemma ApartAt(bufs: seq<Buf>, i: nat, j: nat)
    requires i < |bufs| && j < |bufs| && i != j && forall i, j :: 0 <= i < j < |bufs| ==> Apart(bufs, i, j)
    ensures bufs[i].dev == NODEV || !SameBlock(bufs[i], bufs[j].dev, bufs[j].sector)
  {
    if i < j { assert Apart(bufs, i, j); } else { assert Apart(bufs, j, i); }
  }

  lemma {:induction false} SectorsDiffer(bufs: seq<Buf>, k: nat)
    requires k <= |bufs| && forall i, j :: 0 <= i < j < |bufs| ==> Apart(bufs, i, j)
    requires forall c :: 0 <= c < |bufs| ==> bufs[c].dev == DISK
    ensures |set c | 0 <= c < k :: bufs[c].sector| == k
  {
    if k > 0 {
      SectorsDiffer(bufs, k - 1);
      var s, t := set c | 0 <= c < k - 1 :: bufs[c].sector, set c | 0 <= c < k :: bufs[c].sector;
      forall c | 0 <= c < k - 1 ensures bufs[c].sector != bufs[k - 1].sector { assert Apart(bufs, c, k - 1); }
      assert t == s + {bufs[k - 1].sector};
    }
  }

  /** bget finds a buffer whenever fewer sectors are in busy or dirty buffers than there
      are buffers. */
  lemma SomeReusable(bufs: seq<Buf>, disk: seq<Data>, logged: map<nat, Data>, pinned: set<nat>)
    requires Contents(bufs, disk, logged) && |pinned| < |bufs|
    requires forall c :: 0 <= c < |bufs| && !Reusable(bufs[c]) ==> bufs[c].dev == DISK && bufs[c].sector in pinned
    ensures exists c :: 0 <= c < |bufs| && Reusable(bufs[c])
  {
    if forall c :: 0 <= c < |bufs| ==> !Reusable(bufs[c]) {
      SectorsDiffer(bufs, |bufs|);
      Smaller(set c | 0 <= c < |bufs| :: bufs[c].sector, pinned);
    }
  }

  lemma {:induction false} Smaller(a: set<nat>, b: set<nat>)
    requires a <= b
    ensures |a| <= |b|
  {
    if a != {} {
      var x :| x in a;
      Smaller(a - {x}, b - {x});
    }
  }

  /** An unheld, clean, read buffer equals its disk sector. */
  lemma CleanIsDisk(bufs: seq<Buf>, disk: seq<Data>, logged: map<nat, Data>, b: nat)
    requires Contents(bufs, disk, logged) && b < |bufs| && bufs[b].valid && Reusable(bufs[b])
    ensures bufs[b].sector < |disk| && bufs[b].data == disk[bufs[b].sector]
  {
    assert BufOk(bufs[b], disk, logged);
  }

  /** A change to one buffer, and to the disk and the log at its sector only. */
  lemma ChangeOne(bufs: seq<Buf>, disk: seq<Data>, logged: map<nat, Data>, b: nat, x: Buf, disk': seq<Data>, logged': map<nat, Data>)
    requires Contents(bufs, disk, logged) && b < |bufs| && BufOk(x, disk', logged') && |disk'| == |disk|
    requires SameBlock(x, bufs[b].dev, bufs[b].sector)
    requires forall s: nat :: s != x.sector || x.dev != DISK ==>
      (s in logged <==> s in logged') && (s < |disk| ==> Seen(disk', logged', s) == Seen(disk, logged, s))
    requires x.dev == DISK && x.sector in logged' ==> x.dirty
    ensures Contents(bufs[b := x], disk', logged')
  {
    var c := bufs[b := x];
    forall i | 0 <= i < |c| ensures BufOk(c[i], disk', logged') {
      if i != b {
        assert BufOk(bufs[i], disk, logged);
        if bufs[i].valid { ApartAt(bufs, i, b); }
      }
    }
    forall i, j | 0 <= i < j < |c| ensures Apart(c, i, j) { assert Apart(bufs, i, j); }
    forall s | s in logged' ensures s < |disk'| && Pinned(c, s) {
      if s == x.sector && x.dev == DISK {
        assert c[b].dirty;
      } else {
        assert s in logged && Pinned(bufs, s);
        var i :| 0 <= i < |bufs| && bufs[i].dirty && bufs[i].sector == s;
        assert BufOk(bufs[i], disk, logged);
        assert c[i].dirty && c[i].sector == s;
      }
    }
  }

  /** A clean buffer may be given to a block that is not cached. */
  lemma RecycleOk(bufs: seq<Buf>, disk: seq<Data>, logged: map<nat, Data>, v: nat, dev: int, sector: nat)
    requires Contents(bufs, disk, logged) && v < |bufs| && !bufs[v].dirty
    requires forall c :: 0 <= c < |bufs| ==> !SameBlock(bufs[c], dev, sector)
    ensures Contents(bufs[v := Buf(true, false, false, dev, sector, bufs[v].data)], disk, logged)
  {
    var c := bufs[v := Buf(true, false, false, dev, sector, bufs[v].data)];
    forall i, j | 0 <= i < j < |c| ensures Apart(c, i, j) { assert Apart(bufs, i, j); }
    forall s | s in logged ensures Pinned(c, s) {
      assert Pinned(bufs, s);
      var i :| 0 <= i < |bufs| && bufs[i].dirty && bufs[i].sector == s;
      assert c[i].dirty;
    }
  }

  /** A block whose buffer has not been read has no write pending in the log. */
  lemma UnreadNotLogged(bufs: seq<Buf>, disk: seq<Data>, logged: map<nat, Data>, v: nat)
    requires Contents(bufs, disk, logged) && v < |bufs| && !bufs[v].valid && bufs[v].dev == DISK
    ensures bufs[v].sector !in logged
  {
    if bufs[v].sector in logged {
      assert Pinned(bufs, bufs[v].sector);
      var i :| 0 <= i < |bufs| && bufs[i].dirty && bufs[i].sector == bufs[v].sector;
      assert BufOk(bufs[i], disk, logged) && BufOk(bufs[v], disk, logged);
      ApartAt(bufs, i, v);
    }
  }

  // ------------------------------------------------------------- the routines

  datatype Got = Got(b: nat) | Sleep(b: nat) | Panic

  predicate Reusable(b: Buf) { !b.busy && !b.dirty }

  /** v is the reusable buffer whose last release is longest ago. */
  ghost predicate Oldest(bufs: seq<Buf>, released: seq<int>, v: nat) {
    && v < |bufs| == |released| && Reusable(bufs[v])
    && forall c :: 0 <= c < |bufs| && c != v && Reusable(bufs[c]) ==> released[v] < released[c]
  }

  class Cache {
    const n: nat
    var next: seq<nat>
    var prev: seq<nat>
    var bufs: seq<Buf>
    var disk: seq<Data>
    ghost var ring: seq<nat>
    ghost var released: seq<int>
    ghost var clock: int
    ghost var logged: map<nat, Data>

    ghost predicate ListOk()
      reads this
    {
      && |next| == |prev| == n + 1 && |bufs| == |released| == n
      && Permutation(ring, n) && Linked(next, prev, ring) && ByRelease(ring, released, clock)
    }

    ghost predicate Valid()
      reads this
    {
      ListOk() && Contents(bufs, disk, logged)
    }

    /** binit, on a machine with any number of buffers. */
    constructor (buffers: nat, image: seq<Data>)
      ensures Valid() && n == buffers && disk == image && logged == map[]
    {
      n := buffers;
      disk := image;
      bufs := seq(buffers, _ => Buf(false, false, false, NODEV, 0, []));
      next := seq(buffers + 1, _ => buffers);
      prev := seq(buffers + 1, _ => buffers);
      ring, clock, logged := [buffers], 0, map[];
      released := seq(buffers, i => i);
      new;
      assert LinkAt(next, prev, ring, 0);
      var b := 0;
      while b < n
        invariant 0 <= b <= n && |next| == |prev| == n + 1 && |bufs| == |released| == n && released == seq(n, i => i)
        invariant |ring| == b + 1 && ring[0] == n && Linked(next, prev, ring)
        invariant forall i :: 1 <= i <= b ==> ring[i] == b - i
        invariant disk == image && logged == map[] && bufs == seq(n, _ => Buf(false, false, false, NODEV, 0, []))
      {
        LinkedAt(next, prev, ring, 0);
        assert Injective(ring) by { forall i, j | 0 <= i < j < |ring| ensures Differ(ring, i, j) {} }
        InsertLinked(next, prev, ring, b);
        next := next[b := next[n]];
        prev := prev[b := n];
        prev := prev[next[n] := b];
        next := next[n := b];
        ring := InFront(ring, b);
        b := b + 1;
      }
      clock := n;
      InitialRing(ring, n, released);
    }

    /** bget's first loop. */
    method Lookup(dev: int, sector: nat) returns (b: nat)
      requires ListOk()
      ensures b <= n && (b < n ==> SameBlock(bufs[b], dev, sector))
      ensures b == n ==> forall c :: 0 <= c < n ==> !SameBlock(bufs[c], dev, sector)
    {
      RingBelow(ring, n);
      LinkedAt(next, prev, ring, 0);
      b := next[n];
      ghost var i: nat := Succ(ring, 0);
      while b != n
        invariant i < |ring| && b == ring[i]
        invariant forall k :: 1 <= k < (if i == 0 then n + 1 else i) ==> !SameBlock(bufs[ring[k]], dev, sector)
        decreases if i == 0 then 0 else n + 1 - i
      {
        if SameBlock(bufs[b], dev, sector) {
          return;
        }
        LinkedAt(next, prev, ring, i);
        b := next[b];
        i := Succ(ring, i);
      }
      forall c | 0 <= c < n ensures !SameBlock(bufs[c], dev, sector) {
        assert Member(ring, c);
        var k :| 0 <= k < |ring| && ring[k] == c;
      }
    }

    /** bget's second loop, backwards from the least recently used end. */
    method Victim() returns (b: nat)
      requires ListOk()
      ensures b <= n && (b < n ==> Oldest(bufs, released, b))
      ensures b == n ==> forall c :: 0 <= c < n ==> !Reusable(bufs[c])
    {
      RingBelow(ring, n);
      LinkedAt(next, prev, ring, n);
      b := prev[n];
      ghost var i: nat := n;
      while b != n
        invariant i < |ring| && b == ring[i]
        invariant forall k :: i < k <= n ==> !Reusable(bufs[ring[k]])
        decreases i
      {
        if !bufs[b].busy && !bufs[b].dirty {
          forall c | 0 <= c < n && c != b && Reusable(bufs[c]) ensures released[b] < released[c] {
            assert Member(ring, c);
            var k :| 0 <= k < |ring| && ring[k] == c;
            assert Newer(ring, released, k, i);
          }
          return;
        }
        LinkedAt(next, prev, ring, i - 1);
        b := prev[b];
        i := i - 1;
      }
      forall c | 0 <= c < n ensures !Reusable(bufs[c]) {
        assert Member(ring, c);
        var k :| 0 <= k < |ring| && ring[k] == c;
      }
    }
  
    /** bget. Sleep(b) stands for sleeping on b and starting over. */
    method Bget(dev: int, sector: nat) returns (r: Got)
      requires Valid()
      modifies this`bufs
      ensures Valid()
      ensures r.Panic? ==> bufs == old(bufs) && forall c :: 0 <= c < n ==> !Reusable(bufs[c]) && !SameBlock(bufs[c], dev, sector)
      ensures r.Sleep? ==> bufs == old(bufs) && r.b < n && bufs[r.b].busy && SameBlock(bufs[r.b], dev, sector)
      ensures r.Got? ==> r.b < n && !old(bufs)[r.b].busy
      ensures r.Got? && SameBlock(old(bufs)[r.b], dev, sector) ==> bufs == old(bufs)[r.b := old(bufs)[r.b].(busy := true)]
      ensures r.Got? && !SameBlock(old(bufs)[r.b], dev, sector) ==>
        && (forall c :: 0 <= c < n ==> !SameBlock(old(bufs)[c], dev, sector))
        && Oldest(old(bufs), released, r.b)
        && bufs == old(bufs)[r.b := Buf(true, false, false, dev, sector, old(bufs)[r.b].data)]
    {
      var b := Lookup(dev, sector);
      if b != n {
        if bufs[b].busy {
          return Sleep(b);
        }
        if !bufs[b].valid && dev == DISK { UnreadNotLogged(bufs, disk, logged, b); }
        ChangeOne(bufs, disk, logged, b, bufs[b].(busy := true), disk, logged);
        bufs := bufs[b := bufs[b].(busy := true)];
        return Got.Got(b);
      }
      b := Victim();
      if b == n {
        return Panic;
      }
      RecycleOk(bufs, disk, logged, b, dev, sector);
      bufs := bufs[b := Buf(true, false, false, dev, sector, bufs[b].data)];
      return Got.Got(b);
    }

    /** iderw on a busy buffer; false if it panics. */
    method Iderw(b: nat) returns (ok: bool)
      requires ListOk() && b < n
      modifies this`bufs, this`disk
      ensures var x := old(bufs)[b]; ok <==> x.busy && !(x.valid && !x.dirty) && x.dev == DISK && x.sector < |old(disk)|
      ensures !ok ==> bufs == old(bufs) && disk == old(disk)
      ensures ok && old(bufs)[b].dirty ==> var x := old(bufs)[b];
        disk == old(disk)[x.sector := x.data] && bufs == old(bufs)[b := x.(dirty := false, valid := true)]
      ensures ok && !old(bufs)[b].dirty ==> var x := old(bufs)[b];
        disk == old(disk) && bufs == old(bufs)[b := x.(data := disk[x.sector], valid := true)]
    {
      if !bufs[b].busy {
        return false;
      }
      if bufs[b].valid && !bufs[b].dirty {
        return false;
      }
      if bufs[b].dev != DISK {
        return false;
      }
      if bufs[b].sector >= |disk| {
        return false;
      }
      if bufs[b].dirty {
        bufs := bufs[b := bufs[b].(dirty := false)];
        disk := disk[bufs[b].sector := bufs[b].data];
      } else {
        bufs := bufs[b := bufs[b].(data := disk[bufs[b].sector])];
      }
      bufs := bufs[b := bufs[b].(valid := true)];
      return true;
    }

    /** bread returns a busy buffer showing what a reader without a cache would see. */
    method Bread(dev: int, sector: nat) returns (r: Got)
      requires Valid()
      modifies this`bufs, this`disk
      ensures disk == old(disk) && (!r.Panic? ==> Valid())
      ensures r.Sleep? ==> bufs == old(bufs) && r.b < n && bufs[r.b].busy && SameBlock(bufs[r.b], dev, sector)
      ensures r.Got? ==>
        && r.b < n && !old(bufs)[r.b].busy && SameBlock(bufs[r.b], dev, sector) && bufs == old(bufs)[r.b := bufs[r.b]]
        && bufs[r.b].busy && bufs[r.b].valid && sector < |disk| && bufs[r.b].data == Seen(disk, logged, sector)
        && (SameBlock(old(bufs)[r.b], dev, sector) || Oldest(old(bufs), released, r.b))
      ensures dev == DISK && sector < |disk| && r.Panic? ==>
        forall c :: 0 <= c < n ==> !Reusable(old(bufs)[c]) && !SameBlock(old(bufs)[c], dev, sector)
    {
      r := Bget(dev, sector);
      if !r.Got? {
        return;
      }
      ghost var was := bufs;
      assert BufOk(old(bufs)[r.b], disk, logged);
      if !bufs[r.b].valid {
        if dev == DISK { UnreadNotLogged(bufs, disk, logged, r.b); }
        var ok := Iderw(r.b);
        if !ok {
          return Panic;
        }
        ChangeOne(was, disk, logged, r.b, bufs[r.b], disk, logged);
      }
    }
  
    /** The holder of a buffer changes its data. */
    method Store(b: nat, data: Data)
      requires Valid() && b < n && bufs[b].busy && bufs[b].valid
      modifies this`bufs
      ensures Valid() && bufs == old(bufs)[b := old(bufs)[b].(data := data)]
    {
      assert BufOk(bufs[b], disk, logged);
      ChangeOne(bufs, disk, logged, b, bufs[b].(data := data), disk, logged);
      bufs := bufs[b := bufs[b].(data := data)];
    }

    /** log_write's last step: the write is in the log, and the mark keeps the buffer
        from being recycled until it is installed. */
    method MarkLogged(b: nat)
      requires Valid() && b < n && bufs[b].busy && bufs[b].valid
      modifies this`bufs, this`logged
      ensures Valid() && bufs == old(bufs)[b := old(bufs)[b].(dirty := true)]
      ensures logged == old(logged)[bufs[b].sector := bufs[b].data]
    {
      assert BufOk(bufs[b], disk, logged);
      ghost var logged' := logged[bufs[b].sector := bufs[b].data];
      ChangeOne(bufs, disk, logged, b, bufs[b].(dirty := true), disk, logged');
      bufs, logged := bufs[b := bufs[b].(dirty := true)], logged';
    }

    /** bwrite puts the data on the disk, which settles any logged write of the block. */
    method Bwrite(b: nat) returns (ok: bool)
      requires Valid() && b < n
      modifies this`bufs, this`disk, this`logged
      ensures var x := old(bufs)[b]; ok <==> x.busy && x.dev == DISK && x.sector < |old(disk)|
      ensures ok ==> var x := old(bufs)[b];
        && Valid() && bufs == old(bufs)[b := x.(dirty := false, valid := true)]
        && disk == old(disk)[x.sector := x.data] && logged == old(logged) - {x.sector}
    {
      if !bufs[b].busy {
        return false;
      }
      bufs := bufs[b := bufs[b].(dirty := true)];
      ok := Iderw(b);
      if ok {
        logged := logged - {bufs[b].sector};
        ChangeOne(old(bufs), old(disk), old(logged), b, bufs[b], disk, logged);
        assert bufs == old(bufs)[b := bufs[b]];
      }
    }

    /** brelse's list surgery. */
    method ToHead(b: nat)
      requires ListOk() && b < n
      modifies this`next, this`prev, this`ring, this`released, this`clock
      ensures ListOk() && released == old(released)[b := old(clock)]
    {
      assert Member(ring, b);
      ghost var k :| 0 <= k < |ring| && ring[k] == b;
      ToFrontPermutation(ring, n, k);
      ReleaseOrder(ring, n, released, clock, k);
      LinkedAt(next, prev, ring, k - 1);
      LinkedAt(next, prev, ring, k);
      UnlinkLinked(next, prev, ring, k);
      prev := prev[next[b] := prev[b]];
      next := next[prev[b] := next[b]];
      WithoutInjective(ring, k);
      LinkedAt(next, prev, Without(ring, k), 0);
      InsertLinked(next, prev, Without(ring, k), b);
      next := next[b := next[n]];
      prev := prev[b := n];
      prev := prev[next[n] := b];
      next := next[n := b];
      ring, released, clock := ToFront(ring, k), released[b := clock], clock + 1;
    }

    /** brelse: b becomes the most recently used. Its holder must have written or logged
        what it changed. */
    method Brelse(b: nat) returns (ok: bool)
      requires Valid() && b < n
      requires bufs[b].valid ==> bufs[b].sector < |disk| && bufs[b].data == Seen(disk, logged, bufs[b].sector)
      modifies this`bufs, this`next, this`prev, this`ring, this`released, this`clock
      ensures Valid() && (ok <==> old(bufs)[b].busy)
      ensures ok ==> bufs == old(bufs)[b := old(bufs)[b].(busy := false)] && released == old(released)[b := old(clock)]
      ensures !ok ==> bufs == old(bufs) && released == old(released)
    {
      if !bufs[b].busy {
        return false;
      }
      ToHead(b);
      if !bufs[b].valid && bufs[b].dev == DISK { UnreadNotLogged(bufs, disk, logged, b); }
      assert BufOk(bufs[b], disk, logged);
      ChangeOne(bufs, disk, logged, b, bufs[b].(busy := false), disk, logged);
      bufs := bufs[b := bufs[b].(busy := false)];
      return true;
    }
  }
}
