/** The sectors bmap takes and the sectors it logs. balloc always takes the first
    free sector, so bmap takes the first free ones in order, one for every empty
    slot on its way, and runs out exactly if there are fewer. */
module Supply {
  import opened Blocks
  import opened BlockTree
  import opened Files
  import opened Options

  // ------------------------------------------------------------ free sectors

  /** The free sectors from `k` on, in the order balloc takes them. */
  function Free(fs: Fs, k: nat): (r: seq<Word>)
    requires Shaped(fs) && k <= fs.size
    decreases fs.size - k
  {
    if k == fs.size then [] else if Used(fs, k) then Free(fs, k + 1) else [k] + Free(fs, k + 1)
  }

  lemma {:induction false} FreeFirst(fs: Fs, k: nat)
    requires Shaped(fs) && k <= fs.size
    ensures FreeFrom(fs, k) == if Free(fs, k) == [] then None else Some(Free(fs, k)[0])
    decreases fs.size - k
  {
    if k < fs.size { FreeFirst(fs, k + 1); }
  }

  lemma {:induction false} FreeSame(fs: Fs, r: Fs, k: nat)
    requires Shaped(fs) && Shaped(r) && r.size == fs.size && k <= fs.size
    requires forall c :: k <= c < fs.size ==> Used(r, c) == Used(fs, c)
    ensures Free(r, k) == Free(fs, k)
    decreases fs.size - k
  {
    if k < fs.size { FreeSame(fs, r, k + 1); }
  }

  /** Taking the first free sector leaves the others, in order. */
  lemma {:induction false} FreeTaken(fs: Fs, r: Fs, b: nat, k: nat)
    requires Shaped(fs) && Shaped(r) && r.size == fs.size && k <= fs.size
    requires FreeFrom(fs, k) == Some(b)
    requires forall c :: k <= c < fs.size ==> Used(r, c) == (c == b || Used(fs, c))
    ensures Free(fs, k) != [] && Free(r, k) == Free(fs, k)[1..]
    decreases fs.size - k
  {
    hide Used, Shaped, BBlock, DataStart, BitAt, Bit;
    if Used(fs, k) {
      FreeTaken(fs, r, b, k + 1);
    } else {
      FreeSame(fs, r, k + 1);
    }
  }

  /** The list holds exactly the free sectors, in increasing order. */
  lemma {:induction false} FreeExact(fs: Fs, k: nat)
    requires Shaped(fs) && k <= fs.size
    ensures forall i :: 0 <= i < |Free(fs, k)| ==> k <= Free(fs, k)[i] < fs.size && !Used(fs, Free(fs, k)[i])
    ensures forall i, j :: 0 <= i < j < |Free(fs, k)| ==> Free(fs, k)[i] < Free(fs, k)[j]
    ensures forall c: Word :: k <= c < fs.size && !Used(fs, c) ==> c in Free(fs, k)
    decreases fs.size - k
  {
    if k < fs.size { FreeExact(fs, k + 1); }
  }

  // ------------------------------------------------------------- empty slots

  /** The slots on the way to `x`. */
  function PathTo(x: Slot): (r: set<Slot>) {
    if x.Root? then {x}
    else if x.Leaf? then {x, Parent(x), Parent(Parent(x))}
    else {x, Parent(x)}
  }

  /** The empty ones among them. */
  ghost function EmptyOn(fs: Fs, x: Slot): (r: set<Slot>) {
    set y | y in PathTo(x) && InRange(fs, y) && Ptr(fs, y) == 0
  }

  lemma PathIff(x: Slot, y: Slot)
    ensures y in PathTo(x) <==> OnPath(x, y)
  {
    if !x.Root? {
      var p := Parent(x);
      assert OnPath(x, y) <==> y == x || OnPath(p, y);
      if !p.Root? { assert OnPath(p, y) <==> y == p || OnPath(Parent(p), y); }
    }
  }

  lemma EmptyOnIff(fs: Fs, x: Slot, y: Slot)
    ensures y in EmptyOn(fs, x) <==> OnPath(x, y) && InRange(fs, y) && Ptr(fs, y) == 0
  {
    PathIff(x, y);
  }

  lemma {:induction false} PathInRange(fs: Fs, x: Slot, y: Slot)
    requires InRange(fs, x) && OnPath(x, y)
    ensures InRange(fs, y) && Level(y) <= Level(x)
    ensures Ptr(fs, x) != 0 ==> Ptr(fs, y) != 0
    decreases Level(x)
  {
    if y != x { PathInRange(fs, Parent(x), y); }
  }

  /** Slot `y` is on the way to block `bn`. */
  predicate Through(ino: nat, bn: nat, y: Slot)
    requires bn < MAXFILE
  {
    y in PathTo(SlotOf(ino, bn))
  }

  /** The empty slots on the way to blocks lo .. hi of a file. */
  ghost function EmptyIn(fs: Fs, ino: nat, lo: nat, hi: nat): (r: set<Slot>)
    requires hi <= MAXFILE
  {
    set bn, y {:trigger Through(ino, bn, y)} |
      lo <= bn < hi && y in PathTo(SlotOf(ino, bn)) && Through(ino, bn, y) && InRange(fs, y) && Ptr(fs, y) == 0 :: y
  }

  ghost predicate OnRange(ino: nat, lo: nat, hi: nat, y: Slot)
    requires hi <= MAXFILE
  {
    exists bn {:trigger Through(ino, bn, y)} :: lo <= bn < hi && Through(ino, bn, y)
  }

  lemma EmptyInIff(fs: Fs, ino: nat, lo: nat, hi: nat, y: Slot)
    requires hi <= MAXFILE
    ensures y in EmptyIn(fs, ino, lo, hi) <==> OnRange(ino, lo, hi, y) && InRange(fs, y) && Ptr(fs, y) == 0
  {
    if OnRange(ino, lo, hi, y) {
      var bn :| lo <= bn < hi && Through(ino, bn, y);
    }
  }

  lemma EmptyInNone(fs: Fs, ino: nat, lo: nat)
    requires lo <= MAXFILE
    ensures EmptyIn(fs, ino, lo, lo) == {}
  {
  }

  lemma EmptyInNext(fs: Fs, ino: nat, lo: nat, k: nat)
    requires lo <= k < MAXFILE
    ensures EmptyIn(fs, ino, lo, k + 1) == EmptyIn(fs, ino, lo, k) + EmptyOn(fs, SlotOf(ino, k))
  {
    forall y ensures y in EmptyIn(fs, ino, lo, k + 1) <==> y in EmptyIn(fs, ino, lo, k) || y in EmptyOn(fs, SlotOf(ino, k)) {
      EmptyInIff(fs, ino, lo, k, y);
      EmptyInIff(fs, ino, lo, k + 1, y);
      assert Through(ino, k, y) <==> y in PathTo(SlotOf(ino, k));
      if OnRange(ino, lo, k, y) { var bn :| lo <= bn < k && Through(ino, bn, y); assert OnRange(ino, lo, k + 1, y); }
    }
  }

  // ---------------------------------------------------------- taking sectors

  /** From `fs` to `v`, exactly the empty slots `s` were filled, and the first |s|
      free sectors were taken. */
  ghost predicate Took(fs: Fs, v: Fs, s: set<Slot>) {
    && Owned(fs) && Owned(v) && v.size == fs.size && v.ninodes == fs.ninodes
    && |s| <= |Free(fs, 0)| && Free(v, 0) == Free(fs, 0)[|s|..]
    && Filled(fs, v, s) && Placed(v, s, Free(fs, 0)[..|s|])
  }

  /** The slots `s` hold sectors of `taken`. */
  ghost predicate Placed(v: Fs, s: set<Slot>, taken: seq<Word>) {
    forall y :: y in s && InRange(v, y) ==> Ptr(v, y) in taken
  }

  ghost predicate Filled(fs: Fs, v: Fs, s: set<Slot>)
    requires |v.inodes| == |fs.inodes|
  {
    && (forall y :: y in s ==> InRange(fs, y) && Ptr(fs, y) == 0)
    && (forall y :: InRange(fs, y) && Ptr(fs, y) != 0 ==> Ptr(v, y) == Ptr(fs, y))
    && (forall y :: InRange(fs, y) && Ptr(fs, y) == 0 ==> (Ptr(v, y) != 0 <==> y in s))
  }

  lemma TookNothing(fs: Fs)
    requires Owned(fs)
    ensures Took(fs, fs, {})
  {
  }

  lemma FilledMore(fs: Fs, v: Fs, w: Fs, s: set<Slot>, t: set<Slot>)
    requires |w.inodes| == |v.inodes| == |fs.inodes| && Filled(fs, v, s) && Filled(v, w, t)
    ensures s !! t && Filled(fs, w, s + t)
  {
    forall y | InRange(fs, y) ensures InRange(v, y) { }
    forall y | y in t ensures y !in s && InRange(fs, y) && Ptr(fs, y) == 0 { assert InRange(fs, y); }
  }

  lemma PlacedMore(v: Fs, w: Fs, s: set<Slot>, t: set<Slot>, free: seq<Word>, a: nat, b: nat)
    requires a + b <= |free| && |w.inodes| == |v.inodes| && Filled(v, w, t)
    requires Placed(v, s, free[..a]) && Placed(w, t, free[a..][..b]) && AllFull(v, s)
    ensures Placed(w, s + t, free[..a + b])
  {
    forall y | y in s + t && InRange(w, y) ensures Ptr(w, y) in free[..a + b] {
      if y in t {
        assert free[a..][..b] == free[a..a + b];
        var i :| 0 <= i < b && free[a..a + b][i] == Ptr(w, y);
        assert free[..a + b][a + i] == Ptr(w, y);
      } else {
        assert InRange(v, y) && Ptr(w, y) == Ptr(v, y);
        var i :| 0 <= i < a && free[..a][i] == Ptr(v, y);
        assert free[..a + b][i] == Ptr(w, y);
      }
    }
  }

  lemma TookMore(fs: Fs, v: Fs, w: Fs, s: set<Slot>, t: set<Slot>)
    requires Took(fs, v, s) && Took(v, w, t)
    ensures s !! t && Took(fs, w, s + t)
  {
    hide Filled, Placed, Free, Used, Ptr;
    FilledMore(fs, v, w, s, t);
    assert |s + t| == |s| + |t|;
    assert AllFull(v, s) by { TookFull(fs, v, s); }
    PlacedMore(v, w, s, t, Free(fs, 0), |s|, |t|);
  }

  lemma FilledPath(fs: Fs, v: Fs, s: set<Slot>, x: Slot)
    requires |v.inodes| == |fs.inodes| && Filled(fs, v, s) && InRange(fs, x)
    ensures EmptyOn(v, x) == EmptyOn(fs, x) - s
  {
    forall y ensures y in EmptyOn(v, x) <==> y in EmptyOn(fs, x) - s {
      EmptyOnIff(v, x, y);
      EmptyOnIff(fs, x, y);
      assert InRange(v, y) == InRange(fs, y);
    }
  }

  /** Filling one empty slot takes the first free sector. */
  lemma FillTook(fs: Fs, x: Slot)
    requires Owned(fs) && Fillable(fs, x)
    ensures Fill(fs, x).Some? <==> Free(fs, 0) != []
    ensures Fill(fs, x).Some? ==> Took(fs, Fill(fs, x).value, {x}) && Ptr(Fill(fs, x).value, x) == Free(fs, 0)[0]
  {
    FreeFirst(fs, 0);
    if Free(fs, 0) != [] {
      var b := Free(fs, 0)[0];
      Attachable(fs, x, b);
      AttachTook(fs, x, b);
    }
  }

  lemma AttachTook(fs: Fs, x: Slot, b: Word)
    requires Owned(fs) && Fillable(fs, x) && FreeFrom(fs, 0) == Some(b)
    requires !x.Root? ==> 0 < Ptr(Alloc(fs, b), Parent(x)) < fs.size
    ensures Took(fs, Attach(fs, x, b), {x}) && Ptr(Attach(fs, x, b), x) == b
  {
    hide Used, BitAt, Ptr, Free;
    var r := Attach(fs, x, b);
    AttachOwned(fs, x, b);
    AttachUsed(fs, x, b);
    forall c | 0 <= c < fs.size ensures Used(r, c) == (c == b || Used(fs, c)) { AllocUsed(fs, b, c); }
    FreeTaken(fs, r, b, 0);
    forall y | InRange(fs, y) ensures Ptr(r, y) == if y == x then b else Ptr(fs, y) { AttachPtr(fs, x, b, y); }
    Attachable(fs, x, b);
    FreeFirst(fs, 0);
    assert Free(fs, 0)[..1][0] == b;
  }

  lemma EmptyOnParent(fs: Fs, x: Slot)
    requires InRange(fs, x) && !x.Root?
    ensures x !in EmptyOn(fs, Parent(x))
    ensures Ptr(fs, x) != 0 ==> EmptyOn(fs, x) == EmptyOn(fs, Parent(x))
    ensures Ptr(fs, x) == 0 ==> EmptyOn(fs, x) == EmptyOn(fs, Parent(x)) + {x}
    ensures Ptr(fs, x) == 0 ==> |EmptyOn(fs, x)| == |EmptyOn(fs, Parent(x))| + 1
  {
    assert PathTo(x) == PathTo(Parent(x)) + {x};
    assert x !in PathTo(Parent(x));
  }

  /** One more empty slot after the slots `s` above it. */
  lemma StepTook(fs: Fs, f: Fs, x: Slot, s: set<Slot>)
    requires Took(fs, f, s) && InRange(fs, x) && x !in s && Ptr(fs, x) == 0 && (!x.Root? ==> Ptr(f, Parent(x)) != 0)
    ensures Ptr(f, x) == 0
    ensures Fill(f, x).Some? <==> |s| + 1 <= |Free(fs, 0)|
    ensures Fill(f, x).Some? ==> Took(fs, Fill(f, x).value, s + {x})
  {
    FillTook(f, x);
    if Fill(f, x).Some? { TookMore(fs, f, Fill(f, x).value, s, {x}); }
  }

  lemma ReachStep(fs: Fs, x: Slot)
    requires Owned(fs) && InRange(fs, x) && !x.Root?
    ensures Reach(fs, Parent(x)).None? ==> Reach(fs, x).None?
    ensures Reach(fs, Parent(x)).Some? ==>
      && Owned(Reach(fs, Parent(x)).value) && Ptr(Reach(fs, Parent(x)).value, Parent(x)) != 0
      && Reach(fs, x) == Fill(Reach(fs, Parent(x)).value, x)
  {
  }

  lemma RootTook(fs: Fs, x: Slot)
    requires Owned(fs) && InRange(fs, x) && x.Root?
    ensures Reach(fs, x).Some? <==> |EmptyOn(fs, x)| <= |Free(fs, 0)|
    ensures Reach(fs, x).Some? ==> Took(fs, Reach(fs, x).value, EmptyOn(fs, x))
  {
    if Ptr(fs, x) == 0 {
      assert EmptyOn(fs, x) == {x};
      FillTook(fs, x);
    } else {
      TookNothing(fs);
    }
  }

  /** bmap runs out of sectors exactly if fewer are free than slots on its way are
      empty; otherwise it fills those slots, with the first free sectors. */
  lemma {:induction false} ReachTook(fs: Fs, x: Slot)
    requires Owned(fs) && InRange(fs, x)
    ensures Reach(fs, x).Some? <==> |EmptyOn(fs, x)| <= |Free(fs, 0)|
    ensures Reach(fs, x).Some? ==> Took(fs, Reach(fs, x).value, EmptyOn(fs, x))
    decreases Level(x)
  {
    if x.Root? {
      RootTook(fs, x);
    } else {
      var p := Parent(x);
      ReachTook(fs, p);
      EmptyOnParent(fs, x);
      ReachStep(fs, x);
      if Reach(fs, p).Some? && Ptr(fs, x) == 0 { StepTook(fs, Reach(fs, p).value, x, EmptyOn(fs, p)); }
    }
  }

  // ---------------------------------------------------------- logged sectors

  /** What filling a slot logs: the bitmap sector, the new sector, and the indirect
      block the pointer went into. */
  ghost function FillTouched(fs: Fs, x: Slot): (r: set<nat>)
    requires Shaped(fs) && InRange(fs, x)
  {
    if Ptr(fs, x) != 0 || FreeFrom(fs, 0).None? then {}
    else
      var b := FreeFrom(fs, 0).value;
      {BBlock(fs, b), b as nat} + if x.Root? then {} else {Ptr(fs, Parent(x)) as nat}
  }

  /** What a call of bmap logs. */
  ghost function ReachTouched(fs: Fs, x: Slot): (r: set<nat>)
    requires Owned(fs) && InRange(fs, x)
    decreases Level(x)
  {
    if x.Root? then FillTouched(fs, x)
    else if Reach(fs, Parent(x)).None? then {}
    else ReachTouched(fs, Parent(x)) + FillTouched(Reach(fs, Parent(x)).value, x)
  }

  /** The sectors that slots point to. */
  ghost function Sectors(v: Fs, s: set<Slot>): (r: set<nat>) {
    set y | y in s && InRange(v, y) :: Ptr(v, y) as nat
  }

  /** The bitmap sectors that hold the bits of `s`. */
  ghost function Bitmaps(fs: Fs, s: seq<Word>): (r: set<nat>) {
    set i | 0 <= i < |s| :: BBlock(fs, s[i])
  }

  ghost function ParentsOf(s: set<Slot>): (r: set<Slot>) {
    set y | y in s && !y.Root? :: Parent(y)
  }

  /** `t` holds exactly the sectors of the slots `d`, of the indirect blocks whose
      entries `s` were filled, and of the bits of the first |s| free sectors. */
  ghost predicate LogHolds(t: set<nat>, fs: Fs, v: Fs, d: set<Slot>, s: set<Slot>)
    requires Shaped(fs) && |s| <= |Free(fs, 0)|
  {
    t == Bitmaps(fs, Free(fs, 0)[..|s|]) + Sectors(v, d + ParentsOf(s))
  }

  ghost predicate AllFull(v: Fs, d: set<Slot>) {
    forall y :: y in d ==> InRange(v, y) && Ptr(v, y) != 0
  }

  lemma ParentsFull(v: Fs, s: set<Slot>)
    requires AllFull(v, s)
    ensures AllFull(v, ParentsOf(s))
  {
    forall p | p in ParentsOf(s) ensures InRange(v, p) && Ptr(v, p) != 0 {
      var y :| y in s && !y.Root? && Parent(y) == p;
      assert InRange(v, y) && Ptr(v, y) != 0;
    }
  }

  lemma TookFull(fs: Fs, v: Fs, s: set<Slot>)
    requires Took(fs, v, s)
    ensures AllFull(v, s) && AllFull(v, ParentsOf(s))
  {
    forall y | y in s ensures InRange(v, y) && Ptr(v, y) != 0 { assert InRange(fs, y); }
    ParentsFull(v, s);
  }

  lemma SectorsKept(v: Fs, w: Fs, d: set<Slot>, s: set<Slot>)
    requires |v.inodes| == |w.inodes| && Filled(v, w, s) && AllFull(v, d)
    ensures Sectors(w, d) == Sectors(v, d) && AllFull(w, d)
  {
    forall y | y in d ensures InRange(w, y) && Ptr(w, y) == Ptr(v, y) { }
    forall n: nat ensures n in Sectors(w, d) <==> n in Sectors(v, d) {
      if n in Sectors(w, d) { var y :| y in d && InRange(w, y) && Ptr(w, y) == n; assert InRange(v, y); }
      if n in Sectors(v, d) { var y :| y in d && InRange(v, y) && Ptr(v, y) == n; assert InRange(w, y); }
    }
  }

  lemma SectorsUnion(v: Fs, a: set<Slot>, b: set<Slot>)
    ensures Sectors(v, a + b) == Sectors(v, a) + Sectors(v, b)
  {
  }

  lemma ParentsUnion(a: set<Slot>, b: set<Slot>)
    ensures ParentsOf(a + b) == ParentsOf(a) + ParentsOf(b)
  {
  }

  lemma BitmapsJoin(fs: Fs, v: Fs, s: seq<Word>, rest: seq<Word>, a: nat, b: nat, c: nat)
    requires c == a + b <= |s| && rest == s[a..] && v.ninodes == fs.ninodes
    ensures Bitmaps(fs, s[..c]) == Bitmaps(fs, s[..a]) + Bitmaps(v, rest[..b])
  {
    var l, t := s[..c], rest[..b];
    forall n: nat ensures n in Bitmaps(fs, l) <==> n in Bitmaps(fs, s[..a]) || n in Bitmaps(v, t) {
      if n in Bitmaps(fs, l) {
        var i :| 0 <= i < |l| && BBlock(fs, l[i]) == n;
        if i < a { assert s[..a][i] == l[i]; } else { assert t[i - a] == l[i]; }
      }
      if n in Bitmaps(fs, s[..a]) { var i :| 0 <= i < a && BBlock(fs, s[..a][i]) == n; assert l[i] == s[i]; }
      if n in Bitmaps(v, t) { var i :| 0 <= i < b && BBlock(v, t[i]) == n; assert l[a + i] == t[i]; }
    }
  }

  lemma SlotsUnion(w: Fs, d: set<Slot>, e: set<Slot>, s: set<Slot>, s': set<Slot>)
    ensures Sectors(w, (d + e) + ParentsOf(s + s')) == Sectors(w, d + ParentsOf(s)) + Sectors(w, e + ParentsOf(s'))
  {
    ParentsUnion(s, s');
    SectorsUnion(w, d + ParentsOf(s), e + ParentsOf(s'));
    assert (d + ParentsOf(s)) + (e + ParentsOf(s')) == (d + e) + ParentsOf(s + s');
  }

  /** Logs of consecutive calls add up. */
  lemma LogMore(t: set<nat>, u: set<nat>, fs: Fs, v: Fs, w: Fs, d: set<Slot>, e: set<Slot>, s: set<Slot>, s': set<Slot>)
    requires Took(fs, v, s) && Took(v, w, s') && AllFull(v, d)
    requires LogHolds(t, fs, v, d, s) && LogHolds(u, v, w, e, s')
    ensures Took(fs, w, s + s') && LogHolds(t + u, fs, w, d + e, s + s')
  {
    TookMore(fs, v, w, s, s');
    assert |s + s'| == |s| + |s'|;
    assert Sectors(w, d + ParentsOf(s)) == Sectors(v, d + ParentsOf(s)) by {
      TookFull(fs, v, s);
      SectorsKept(v, w, d + ParentsOf(s), s');
    }
    LogSum(t, u, fs, v, w, d, e, s, s');
  }

  lemma LogSum(t: set<nat>, u: set<nat>, fs: Fs, v: Fs, w: Fs, d: set<Slot>, e: set<Slot>, s: set<Slot>, s': set<Slot>)
    requires Shaped(fs) && Shaped(v) && v.ninodes == fs.ninodes
    requires |s| + |s'| == |s + s'| <= |Free(fs, 0)| && Free(v, 0) == Free(fs, 0)[|s|..]
    requires LogHolds(t, fs, v, d, s) && LogHolds(u, v, w, e, s')
    requires Sectors(w, d + ParentsOf(s)) == Sectors(v, d + ParentsOf(s))
    ensures LogHolds(t + u, fs, w, d + e, s + s')
  {
    BitmapsJoin(fs, v, Free(fs, 0), Free(v, 0), |s|, |s'|, |s + s'|);
    SlotsUnion(w, d, e, s, s');
    Regroup(t, u, Bitmaps(fs, Free(fs, 0)[..|s|]), Sectors(v, d + ParentsOf(s)),
            Bitmaps(v, Free(v, 0)[..|s'|]), Sectors(w, e + ParentsOf(s')),
            Bitmaps(fs, Free(fs, 0)[..|s + s'|]), Sectors(w, (d + e) + ParentsOf(s + s')));
  }

  lemma Regroup(t: set<nat>, u: set<nat>, a: set<nat>, b: set<nat>, c: set<nat>, d: set<nat>, ac: set<nat>, bd: set<nat>)
    requires t == a + b && u == c + d && ac == a + c && bd == b + d
    ensures t + u == ac + bd
  {
  }

  lemma FillLog(fs: Fs, x: Slot)
    requires Owned(fs) && Fillable(fs, x) && Fill(fs, x).Some?
    ensures Took(fs, Fill(fs, x).value, {x}) && LogHolds(FillTouched(fs, x), fs, Fill(fs, x).value, {x}, {x})
  {
    hide Used, Ptr, BitAt;
    FillTook(fs, x);
    FreeFirst(fs, 0);
    var r, b := Fill(fs, x).value, Free(fs, 0)[0];
    assert InRange(r, x) && (!x.Root? ==> Ptr(r, Parent(x)) == Ptr(fs, Parent(x)));
    FillSectors(r, x);
    OneBitmap(fs, Free(fs, 0));
    UnionOne(BBlock(fs, b), b, if x.Root? then {} else {Ptr(fs, Parent(x)) as nat});
  }

  lemma UnionOne(a: nat, b: nat, c: set<nat>)
    ensures {a, b} + c == {a} + ({b} + c)
  {
  }

  lemma OneBitmap(fs: Fs, s: seq<Word>)
    requires s != []
    ensures Bitmaps(fs, s[..1]) == {BBlock(fs, s[0])}
  {
    assert s[..1][0] == s[0];
  }

  lemma FillSectors(r: Fs, x: Slot)
    requires InRange(r, x)
    ensures Sectors(r, {x} + ParentsOf({x})) == {Ptr(r, x) as nat} + if x.Root? then {} else {Ptr(r, Parent(x)) as nat}
  {
    SectorsUnion(r, {x}, ParentsOf({x}));
    OneSector(r, x);
    if x.Root? {
      assert ParentsOf({x}) == {};
    } else {
      assert ParentsOf({x}) == {Parent(x)};
      OneSector(r, Parent(x));
    }
  }

  lemma OneSector(r: Fs, x: Slot)
    requires InRange(r, x)
    ensures Sectors(r, {x}) == {Ptr(r, x) as nat}
  {
  }

  lemma FillFull(fs: Fs, x: Slot)
    requires Owned(fs) && InRange(fs, x) && Ptr(fs, x) != 0 && (!x.Root? ==> Ptr(fs, Parent(x)) != 0)
    ensures Fill(fs, x) == Some(fs) && FillTouched(fs, x) == {}
  {
  }

  lemma RootLog(fs: Fs, x: Slot)
    requires Owned(fs) && InRange(fs, x) && x.Root? && Reach(fs, x).Some?
    ensures Took(fs, Reach(fs, x).value, EmptyOn(fs, x))
    ensures LogHolds(ReachTouched(fs, x), fs, Reach(fs, x).value, EmptyOn(fs, x), EmptyOn(fs, x))
  {
    if Ptr(fs, x) == 0 {
      FillLog(fs, x);
      assert EmptyOn(fs, x) == {x};
    } else {
      TookNothing(fs);
      NoBitmap(fs, Free(fs, 0));
      assert EmptyOn(fs, x) == {};
      assert Sectors(fs, {} + ParentsOf({})) == {};
    }
  }

  /** bmap logs exactly the sectors of the slots it fills, of the indirect blocks
      they lie in, and of the bits it sets. */
  lemma {:induction false} ReachLog(fs: Fs, x: Slot)
    requires Owned(fs) && InRange(fs, x) && Reach(fs, x).Some?
    ensures Took(fs, Reach(fs, x).value, EmptyOn(fs, x))
    ensures LogHolds(ReachTouched(fs, x), fs, Reach(fs, x).value, EmptyOn(fs, x), EmptyOn(fs, x))
    decreases Level(x)
  {
    hide LogHolds, Used, Fill, FillTouched, Extends, EmptyOn, Free;
    if x.Root? {
      RootLog(fs, x);
    } else {
      var p := Parent(x);
      ReachStep(fs, x);
      ReachLog(fs, p);
      EmptyOnParent(fs, x);
      var f, e := Reach(fs, p).value, EmptyOn(fs, p);
      TookFull(fs, f, e);
      assert InRange(f, x);
      if Ptr(fs, x) == 0 {
        FillLog(f, x);
        LogMore(ReachTouched(fs, p), FillTouched(f, x), fs, f, Reach(fs, x).value, e, {x}, e, {x});
      } else {
        FillFull(f, x);
        assert ReachTouched(fs, p) + {} == ReachTouched(fs, p);
      }
    }
  }

  // ------------------------------------------------------------ whole writes

  /** An empty slot above `x` is the parent of another empty slot on the way. */
  lemma EmptyClosed(v: Fs, x: Slot)
    requires InRange(v, x)
    ensures EmptyOn(v, x) <= {x} + ParentsOf(EmptyOn(v, x))
  {
    forall y | y in EmptyOn(v, x) && y != x ensures y in ParentsOf(EmptyOn(v, x)) {
      var z := if y == Parent(x) then x else Parent(x);
      assert z in EmptyOn(v, x) && Parent(z) == y;
    }
  }

  /** The slots of blocks lo .. hi of a file. */
  ghost function RangeSlots(ino: nat, lo: nat, hi: nat): (r: set<Slot>)
    requires hi <= MAXFILE
  {
    set bn | lo <= bn < hi :: SlotOf(ino, bn)
  }

  lemma RangeSlotsNext(ino: nat, lo: nat, k: nat)
    requires lo <= k < MAXFILE
    ensures RangeSlots(ino, lo, k + 1) == RangeSlots(ino, lo, k) + {SlotOf(ino, k)}
  {
  }

  lemma RangeFull(fs: Fs, v: Fs, ino: nat, lo: nat, hi: nat)
    requires ino < |fs.inodes| == |v.inodes| && lo <= hi <= MAXFILE && Filled(fs, v, EmptyIn(fs, ino, lo, hi))
    ensures AllFull(v, RangeSlots(ino, lo, hi))
  {
    forall y | y in RangeSlots(ino, lo, hi) ensures InRange(v, y) && Ptr(v, y) != 0 {
      var bn :| lo <= bn < hi && SlotOf(ino, bn) == y;
      assert Through(ino, bn, y);
      EmptyInIff(fs, ino, lo, hi, y);
      assert InRange(fs, y);
    }
  }

  /** bmap for one more block after blocks lo .. k. */
  lemma RangeTook(fs: Fs, v: Fs, ino: nat, lo: nat, k: nat)
    requires ino < |fs.inodes| && lo <= k < MAXFILE && Took(fs, v, EmptyIn(fs, ino, lo, k))
    ensures Reach(v, SlotOf(ino, k)).Some? <==> |EmptyIn(fs, ino, lo, k + 1)| <= |Free(fs, 0)|
    ensures EmptyIn(fs, ino, lo, k + 1) == EmptyIn(fs, ino, lo, k) + EmptyOn(v, SlotOf(ino, k))
  {
    var x, s := SlotOf(ino, k), EmptyIn(fs, ino, lo, k);
    assert InRange(fs, x) && InRange(v, x);
    FilledPath(fs, v, s, x);
    ReachTook(v, x);
    EmptyInNext(fs, ino, lo, k);
    Disjoint(s, EmptyOn(fs, x), EmptyOn(v, x));
  }

  lemma Disjoint<T>(s: set<T>, a: set<T>, b: set<T>)
    requires b == a - s
    ensures s + a == s + b && |s + b| == |s| + |b|
  {
  }

  /** The store of one iteration of writei takes nothing and logs its sector. */
  lemma StoreTook(r: Fs, ino: nat, off: nat, src: seq<Byte>)
    requires Owned(r) && ino < r.ninodes && off % BSIZE + |src| <= BSIZE && InFile(r, ino, off)
    requires MapOf(r, ino, off / BSIZE) < r.size
    ensures Took(r, StoreBytes(r, ino, off, src), {})
  {
    var w, x := StoreBytes(r, ino, off, src), SlotOf(ino, off / BSIZE);
    StoreBytesOwned(r, ino, off, src);
    assert DataStart(r) <= Ptr(r, x) by {
      assert InRange(r, x);
      assert Marked(r, Ptr(r, x));
    }
    assert Free(w, 0) == Free(r, 0) by {
      forall c | 0 <= c < r.size ensures Used(w, c) == Used(r, c) { assert BBlock(r, c) < DataStart(r); }
      FreeSame(r, w, 0);
    }
  }

  lemma OneSlotLog(r: Fs, w: Fs, x: Slot)
    requires Took(r, w, {}) && InRange(r, x) && Ptr(r, x) != 0
    ensures LogHolds({Ptr(r, x) as nat}, r, w, {x}, {})
  {
    assert Ptr(w, x) == Ptr(r, x);
    assert {x} + ParentsOf({}) == {x};
    OneSector(w, x);
    NoBitmap(r, Free(r, 0));
  }

  lemma NoBitmap(fs: Fs, s: seq<Word>)
    ensures Bitmaps(fs, s[..0]) == {}
  {
  }

  /** One iteration of writei, after blocks lo .. k have been written. */
  lemma RangeLog(t: set<nat>, fs: Fs, v: Fs, r: Fs, w: Fs, ino: nat, lo: nat, k: nat)
    requires ino < |fs.inodes| && lo <= k < MAXFILE && Took(fs, v, EmptyIn(fs, ino, lo, k))
    requires LogHolds(t, fs, v, RangeSlots(ino, lo, k), EmptyIn(fs, ino, lo, k))
    requires Reach(v, SlotOf(ino, k)) == Some(r) && Took(r, w, {})
    ensures Took(fs, w, EmptyIn(fs, ino, lo, k + 1))
    ensures LogHolds(t + ReachTouched(v, SlotOf(ino, k)) + {Ptr(r, SlotOf(ino, k)) as nat},
                     fs, w, RangeSlots(ino, lo, k + 1), EmptyIn(fs, ino, lo, k + 1))
  {
    var x, s, d := SlotOf(ino, k), EmptyIn(fs, ino, lo, k), RangeSlots(ino, lo, k);
    assert InRange(fs, x) && InRange(v, x) && InRange(r, x);
    RangeFull(fs, v, ino, lo, k);
    RangeTook(fs, v, ino, lo, k);
    RangeSlotsNext(ino, lo, k);
    StepLog(t, fs, v, r, w, x, d, s);
  }

  lemma StepLog(t: set<nat>, fs: Fs, v: Fs, r: Fs, w: Fs, x: Slot, d: set<Slot>, s: set<Slot>)
    requires InRange(v, x) && InRange(r, x) && Took(fs, v, s) && AllFull(v, d) && LogHolds(t, fs, v, d, s)
    requires Reach(v, x) == Some(r) && Took(r, w, {})
    ensures Took(fs, w, s + EmptyOn(v, x))
    ensures LogHolds(t + ReachTouched(v, x) + {Ptr(r, x) as nat}, fs, w, d + {x}, s + EmptyOn(v, x))
  {
    var e, u := EmptyOn(v, x), ReachTouched(v, x);
    StepReach(t, fs, v, r, x, d, s);
    OneSlotLog(r, w, x);
    LogMore(t + u, {Ptr(r, x) as nat}, fs, r, w, d + e, {x}, s + e, {});
    DropInner(v, x, d, s);
  }

  lemma StepReach(t: set<nat>, fs: Fs, v: Fs, r: Fs, x: Slot, d: set<Slot>, s: set<Slot>)
    requires InRange(v, x) && Took(fs, v, s) && AllFull(v, d) && LogHolds(t, fs, v, d, s) && Reach(v, x) == Some(r)
    ensures Took(fs, r, s + EmptyOn(v, x)) && AllFull(r, d + EmptyOn(v, x))
    ensures LogHolds(t + ReachTouched(v, x), fs, r, d + EmptyOn(v, x), s + EmptyOn(v, x))
  {
    var e := EmptyOn(v, x);
    ReachLog(v, x);
    LogMore(t, ReachTouched(v, x), fs, v, r, d, e, s, e);
    BothFull(fs, v, r, d, e, s);
  }

  lemma BothFull(fs: Fs, v: Fs, r: Fs, d: set<Slot>, e: set<Slot>, s: set<Slot>)
    requires Took(fs, v, s) && Took(v, r, e) && AllFull(v, d)
    ensures AllFull(r, d + e)
  {
    TookFull(v, r, e);
    SectorsKept(v, r, d, e);
  }

  lemma DropInner(v: Fs, x: Slot, d: set<Slot>, s: set<Slot>)
    requires InRange(v, x)
    ensures (s + EmptyOn(v, x)) + {} == s + EmptyOn(v, x)
    ensures var e := EmptyOn(v, x); ((d + e) + {x}) + ParentsOf(s + e) == (d + {x}) + ParentsOf(s + e)
  {
    EmptyClosed(v, x);
    ParentsUnion(s, EmptyOn(v, x));
  }

  lemma {:induction false} SubsetSize<T>(a: set<T>, b: set<T>)
    requires a <= b
    ensures |a| <= |b|
  {
    if a != {} {
      var x :| x in a;
      SubsetSize(a - {x}, b - {x});
    }
  }

  lemma EmptyInMore(fs: Fs, ino: nat, lo: nat, hi: nat, hi': nat)
    requires hi <= hi' <= MAXFILE
    ensures |EmptyIn(fs, ino, lo, hi)| <= |EmptyIn(fs, ino, lo, hi')|
  {
    forall y | y in EmptyIn(fs, ino, lo, hi) ensures y in EmptyIn(fs, ino, lo, hi') {
      EmptyInIff(fs, ino, lo, hi, y);
      EmptyInIff(fs, ino, lo, hi', y);
      var bn :| lo <= bn < hi && Through(ino, bn, y);
      assert OnRange(ino, lo, hi', y);
    }
    SubsetSize(EmptyIn(fs, ino, lo, hi), EmptyIn(fs, ino, lo, hi'));
  }

  /** Overlapping or adjacent ranges, the second of which finds the slots of the
      first filled. */
  lemma EmptyInJoin(fs: Fs, v: Fs, ino: nat, lo: nat, hi: nat, lo': nat, hi': nat)
    requires ino < |fs.inodes| == |v.inodes| && lo <= lo' <= hi <= hi' <= MAXFILE
    requires Filled(fs, v, EmptyIn(fs, ino, lo, hi))
    ensures EmptyIn(fs, ino, lo, hi') == EmptyIn(fs, ino, lo, hi) + EmptyIn(v, ino, lo', hi')
    ensures |EmptyIn(fs, ino, lo, hi')| == |EmptyIn(fs, ino, lo, hi)| + |EmptyIn(v, ino, lo', hi')|
  {
    var a, b, c := EmptyIn(fs, ino, lo, hi), EmptyIn(v, ino, lo', hi'), EmptyIn(fs, ino, lo, hi');
    forall y ensures (y in c <==> y in a || y in b) && !(y in a && y in b) {
      EmptyInIff(fs, ino, lo, hi, y);
      EmptyInIff(v, ino, lo', hi', y);
      EmptyInIff(fs, ino, lo, hi', y);
      OnRangeJoin(ino, lo, hi, lo', hi', y);
      assert InRange(fs, y) == InRange(v, y);
    }
    assert c == a + b && a !! b;
  }

  lemma OnRangeJoin(ino: nat, lo: nat, hi: nat, lo': nat, hi': nat, y: Slot)
    requires lo <= lo' <= hi <= hi' <= MAXFILE
    ensures OnRange(ino, lo, hi', y) <==> OnRange(ino, lo, hi, y) || OnRange(ino, lo', hi', y)
  {
    if OnRange(ino, lo, hi', y) {
      var bn :| lo <= bn < hi' && Through(ino, bn, y);
      assert bn < hi || lo' <= bn;
    }
    if OnRange(ino, lo, hi, y) { var bn :| lo <= bn < hi && Through(ino, bn, y); }
    if OnRange(ino, lo', hi', y) { var bn :| lo' <= bn < hi' && Through(ino, bn, y); }
  }
}
