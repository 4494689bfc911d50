/** Path names (fs.c): skipelem, directories, the inode cache and namex. A directory is
    the sequence of its entries; an entry with inode number 0 is empty. */
module Names {
  import opened Options

  const DIRSIZ: nat := 14
  const NUL: char := 0 as char
  const ROOTINO: nat := 1
  /** Inode numbers are stored in directories as 16-bit numbers. */
  const USHORT: nat := 0x1_0000

  // -------------------------------------------------------------------- names

  function Cut(s: string): (r: string) { if |s| <= DIRSIZ then s else s[..DIRSIZ] }

  /** Two names are the same to directories exactly if they are equal or agree in their
      first fourteen characters. */
  lemma CutSame(a: string, b: string)
    ensures Cut(a) == Cut(b) <==> a == b || (|a| >= 14 && |b| >= 14 && a[..14] == b[..14])
  {
    assert |a| == 14 ==> a[..14] == a;
    assert |b| == 14 ==> b[..14] == b;
  }

  /** The name in a 14-byte buffer: up to the first NUL, or all of it. */
  function TextFrom(b: string, k: nat): (r: string)
    requires k <= |b|
    decreases |b| - k
  {
    if k == |b| || b[k] == NUL then [] else [b[k]] + TextFrom(b, k + 1)
  }

  function Text(b: string): (r: string) { TextFrom(b, 0) }

  /** namecmp, that is strncmp over 14 bytes, finds no difference from byte k on. */
  predicate SameFrom(a: string, b: string, k: nat)
    requires |a| == |b| == DIRSIZ && k <= DIRSIZ
    decreases DIRSIZ - k
  {
    k == DIRSIZ || (a[k] == b[k] && (a[k] == NUL || SameFrom(a, b, k + 1)))
  }

  /** namecmp compares texts: what stands after a NUL does not matter. */
  lemma {:induction false} SameIff(a: string, b: string, k: nat)
    requires |a| == |b| == DIRSIZ && k <= DIRSIZ
    ensures SameFrom(a, b, k) <==> TextFrom(a, k) == TextFrom(b, k)
    decreases DIRSIZ - k
  {
    if k < DIRSIZ && a[k] != NUL && b[k] != NUL {
      SameIff(a, b, k + 1);
      var x, y := TextFrom(a, k + 1), TextFrom(b, k + 1);
      assert ([a[k]] + x)[0] == a[k] && ([b[k]] + y)[0] == b[k];
      assert ([a[k]] + x)[1..] == x && ([b[k]] + y)[1..] == y;
    }
  }

  /** strncpy: the name cut to 14 bytes, padded with NULs. */
  function Padded(s: string): (b: string)
    ensures |b| == DIRSIZ
  {
    seq(DIRSIZ, i requires 0 <= i < DIRSIZ => if i < |s| then s[i] else NUL)
  }

  predicate NulFree(s: string) { forall k :: 0 <= k < |s| ==> s[k] != NUL }

  lemma {:induction false} TextOf(b: string, s: string, k: nat)
    requires |b| == DIRSIZ && k <= |s| <= DIRSIZ && NulFree(s)
    requires (forall i :: k <= i < |s| ==> b[i] == s[i]) && (|s| < DIRSIZ ==> b[|s|] == NUL)
    ensures TextFrom(b, k) == s[k..]
    decreases |s| - k
  {
    if k < |s| {
      TextOf(b, s, k + 1);
      assert s[k..] == [s[k]] + s[k + 1..];
    }
  }

  lemma PaddedText(s: string)
    requires NulFree(s)
    ensures Text(Padded(s)) == Cut(s)
  {
    TextOf(Padded(s), Cut(s), 0);
  }

  // -------------------------------------------------------------------- paths

  function Slashes(path: string, i: nat): (j: nat)
    requires i <= |path|
    ensures i <= j <= |path| && (j < |path| ==> path[j] != '/')
    decreases |path| - i
  {
    if i < |path| && path[i] == '/' then Slashes(path, i + 1) else i
  }

  function ElemEnd(path: string, i: nat): (j: nat)
    requires i <= |path|
    ensures i <= j <= |path| && (j < |path| ==> path[j] == '/') && (i < |path| && path[i] != '/' ==> i < j)
    decreases |path| - i
  {
    if i < |path| && path[i] != '/' then ElemEnd(path, i + 1) else i
  }

  /** The elements skipelem finds from position i on. */
  function Elements(path: string, i: nat): (r: seq<string>)
    requires i <= |path|
    decreases |path| - i
  {
    var s := Slashes(path, i);
    if s == |path| then [] else
      var e := ElemEnd(path, s);
      [path[s..e]] + Elements(path, e)
  }

  /** A path split at every slash, empty parts included; `cur` is the part read so far. */
  function Parts(path: string, i: nat, cur: string): (r: seq<string>)
    requires i <= |path|
    decreases |path| - i
  {
    if i == |path| then [cur]
    else if path[i] == '/' then [cur] + Parts(path, i + 1, [])
    else Parts(path, i + 1, cur + [path[i]])
  }

  function NonEmpty(parts: seq<string>): (r: seq<string>) {
    if parts == [] then [] else (if parts[0] == [] then [] else [parts[0]]) + NonEmpty(parts[1..])
  }

  lemma {:induction false} InElement(path: string, s: nat, i: nat)
    requires s <= |path| && s <= i < ElemEnd(path, s)
    ensures i < |path| && path[i] != '/'
    decreases i - s
  {
    if s < i { InElement(path, s + 1, i); }
  }

  lemma FirstPart(part: string, rest: seq<string>)
    requires part != []
    ensures NonEmpty([part] + rest) == [part] + NonEmpty(rest)
  {
    assert ([part] + rest)[1..] == rest;
  }

  /** At the end of an element. */
  lemma {:induction false} PartsEnd(path: string, e: nat, cur: string)
    requires e <= |path| && (e < |path| ==> path[e] == '/') && cur != []
    ensures NonEmpty(Parts(path, e, cur)) == [cur] + Elements(path, e)
    decreases |path| - e, 0
  {
    if e == |path| {
      FirstPart(cur, []);
      assert [cur] + [] == [cur] && NonEmpty([]) == [] && Elements(path, e) == [];
    } else {
      var rest := Parts(path, e + 1, []);
      FirstPart(cur, rest);
      PartsElements(path, e + 1);
      ElementsSlash(path, e);
    }
  }

  lemma ElementsSlash(path: string, e: nat)
    requires e < |path| && path[e] == '/'
    ensures Elements(path, e) == Elements(path, e + 1)
  {
    assert Slashes(path, e) == Slashes(path, e + 1);
  }

  /** Inside the element that starts at s and ends at e. */
  lemma {:induction false} PartsInside(path: string, s: nat, i: nat, e: nat)
    requires s < |path| && e == ElemEnd(path, s) && s < i <= e
    ensures NonEmpty(Parts(path, i, path[s..i])) == [path[s..e]] + Elements(path, e)
    decreases |path| - i, 1
  {
    if i == e {
      PartsEnd(path, e, path[s..e]);
    } else {
      InElement(path, s, i);
      assert path[s..i] + [path[i]] == path[s..i + 1];
      PartsInside(path, s, i + 1, e);
    }
  }

  /** skipelem's elements are the path split on slashes with the empty parts dropped. */
  lemma {:induction false} PartsElements(path: string, i: nat)
    requires i <= |path|
    ensures NonEmpty(Parts(path, i, [])) == Elements(path, i)
    decreases |path| - i, 2
  {
    if i == |path| {
      var one: seq<string> := [[]];
      assert one[1..] == [];
    } else if path[i] == '/' {
      var ps := [[]] + Parts(path, i + 1, []);
      assert ps[1..] == Parts(path, i + 1, []);
      PartsElements(path, i + 1);
    } else {
      assert [] + [path[i]] == path[i..i + 1];
      PartsInside(path, i, i + 1, ElemEnd(path, i));
    }
  }

  lemma ElementsSettle(path: string, i: nat)
    requires i <= |path|
    ensures Elements(path, Slashes(path, i)) == Elements(path, i)
    ensures Elements(path, i) == [] <==> Slashes(path, i) == |path|
  {
    assert Slashes(path, Slashes(path, i)) == Slashes(path, i);
  }

  // -------------------------------------------------------------- directories

  datatype Dirent = Dirent(inum: nat, name: string)

  predicate Wellformed(dir: seq<Dirent>) { forall k :: 0 <= k < |dir| ==> |dir[k].name| == DIRSIZ }

  predicate Names(de: Dirent, name: string) { de.inum != 0 && Text(de.name) == name }

  /** dirlookup's scan: the inode number of the first entry with that name. */
  function Find(dir: seq<Dirent>, k: nat, name: string): (r: Option<nat>)
    requires k <= |dir|
    decreases |dir| - k
  {
    if k == |dir| then None else if Names(dir[k], name) then Some(dir[k].inum) else Find(dir, k + 1, name)
  }

  function Lookup(dir: seq<Dirent>, name: string): (r: Option<nat>) { Find(dir, 0, name) }

  predicate Clash(dir: seq<Dirent>, j: nat, k: nat)
    requires j < |dir| && k < |dir|
  {
    dir[j].inum != 0 && dir[k].inum != 0 && Text(dir[j].name) == Text(dir[k].name)
  }

  ghost predicate Unique(dir: seq<Dirent>) { forall j, k :: 0 <= j < k < |dir| ==> !Clash(dir, j, k) }

  /** The directory as a relation: it binds the name to the inode. */
  ghost predicate Binds(dir: seq<Dirent>, name: string, inum: nat) {
    exists k :: 0 <= k < |dir| && Names(dir[k], name) && dir[k].inum == inum
  }

  lemma {:induction false} FindSome(dir: seq<Dirent>, k: nat, name: string, j: nat)
    requires k <= j < |dir| && Names(dir[j], name) && Unique(dir)
    ensures Find(dir, k, name) == Some(dir[j].inum)
    decreases j - k
  {
    if k < j {
      assert !Clash(dir, k, j);
      FindSome(dir, k + 1, name, j);
    }
  }

  lemma {:induction false} FindWhere(dir: seq<Dirent>, k: nat, name: string) returns (j: nat)
    requires k <= |dir| && Find(dir, k, name).Some?
    ensures k <= j < |dir| && Names(dir[j], name) && Find(dir, k, name) == Some(dir[j].inum)
    decreases |dir| - k
  {
    if Names(dir[k], name) { j := k; } else { j := FindWhere(dir, k + 1, name); }
  }

  lemma {:induction false} FindNone(dir: seq<Dirent>, k: nat, name: string)
    requires k <= |dir|
    ensures Find(dir, k, name) == None <==> forall j :: k <= j < |dir| ==> !Names(dir[j], name)
    decreases |dir| - k
  {
    if k < |dir| { FindNone(dir, k + 1, name); }
  }

  /** With unique names, dirlookup reads the directory as a map. */
  lemma LookupBinds(dir: seq<Dirent>, name: string, inum: nat)
    requires Unique(dir)
    ensures Lookup(dir, name) == Some(inum) <==> Binds(dir, name, inum)
  {
    if Lookup(dir, name) == Some(inum) { var j := FindWhere(dir, 0, name); }
    if Binds(dir, name, inum) {
      var k :| 0 <= k < |dir| && Names(dir[k], name) && dir[k].inum == inum;
      FindSome(dir, 0, name, k);
    }
  }

  /** The first empty entry from k on, or the end. */
  function FirstEmpty(dir: seq<Dirent>, k: nat): (j: nat)
    requires k <= |dir|
    ensures k <= j <= |dir| && (j < |dir| ==> dir[j].inum == 0)
    ensures forall i :: k <= i < j ==> dir[i].inum != 0
    decreases |dir| - k
  {
    if k == |dir| || dir[k].inum == 0 then k else FirstEmpty(dir, k + 1)
  }

  /** dirlink's write of a new entry; the inode number is cut to 16 bits. */
  function Linked(dir: seq<Dirent>, name: string, inum: nat): (r: seq<Dirent>) {
    var k, de := FirstEmpty(dir, 0), Dirent(inum % USHORT, Padded(name));
    if k == |dir| then dir + [de] else dir[k := de]
  }

  /** The new entry goes into entry k if k is the first empty one, and onto the end only
      if no entry is empty. */
  lemma LinkPlace(dir: seq<Dirent>, name: string, inum: nat, k: nat)
    requires k <= |dir| && forall i :: 0 <= i < k ==> dir[i].inum != 0
    ensures k < |dir| && dir[k].inum == 0 ==> Linked(dir, name, inum) == dir[k := Dirent(inum % 65536, Padded(name))]
    ensures k == |dir| ==> Linked(dir, name, inum) == dir + [Dirent(inum % 65536, Padded(name))]
  {
    var j := FirstEmpty(dir, 0);
    assert j <= |dir| && (j < |dir| ==> dir[j].inum == 0);
  }

  lemma LinkedAt(dir: seq<Dirent>, name: string, inum: nat, j: nat)
    ensures var k, r := FirstEmpty(dir, 0), Linked(dir, name, inum);
      && |r| == (if k == |dir| then |dir| + 1 else |dir|)
      && (j < |r| ==> r[j] == if j == k then Dirent(inum % USHORT, Padded(name)) else if j < |dir| then dir[j] else r[j])
  {
  }

  /** What dirlink's new entry binds its name to: an inode number that is a multiple
      of 65536 makes it an empty entry. */
  function Bound(inum: nat): (r: Option<nat>) {
    if inum % USHORT == 0 then None else Some(inum % USHORT)
  }

  /** dirlink keeps names unique and entries well formed and changes no other name's
      binding; the new name is bound to the given inode exactly if its number is
      neither 0 nor beyond 16 bits. */
  lemma LinkAddsOne(dir: seq<Dirent>, name: string, inum: nat, other: string)
    requires Unique(dir) && Wellformed(dir) && NulFree(name) && Lookup(dir, Cut(name)) == None
    ensures var r := Linked(dir, name, inum);
      && Unique(r) && Wellformed(r)
      && Lookup(r, other) == (if other == Cut(name) then Bound(inum) else Lookup(dir, other))
      && (Lookup(r, Cut(name)) == Some(inum) <==> 0 < inum < USHORT)
  {
    var k, r := FirstEmpty(dir, 0), Linked(dir, name, inum);
    PaddedText(name);
    FindNone(dir, 0, Cut(name));
    forall i, j | 0 <= i < j < |r| ensures !Clash(r, i, j) {
      if i < |dir| && j < |dir| { assert !Clash(dir, i, j); }
      if i == k { assert j < |dir| && !Names(dir[j], Cut(name)); }
      if j == k { assert i < |dir| && !Names(dir[i], Cut(name)); }
    }
    LinkNew(dir, name, inum);
    if other != Cut(name) { LinkOther(dir, name, inum, other); }
  }

  lemma LinkNew(dir: seq<Dirent>, name: string, inum: nat)
    requires Unique(Linked(dir, name, inum)) && Text(Padded(name)) == Cut(name) && Lookup(dir, Cut(name)) == None
    ensures Lookup(Linked(dir, name, inum), Cut(name)) == Bound(inum)
    ensures Bound(inum) == Some(inum) <==> 0 < inum < USHORT
  {
    var k, r := FirstEmpty(dir, 0), Linked(dir, name, inum);
    if inum % USHORT == 0 {
      FindNone(dir, 0, Cut(name));
      FindNone(r, 0, Cut(name));
      forall j | 0 <= j < |r| ensures !Names(r[j], Cut(name)) {
        if j != k { assert r[j] == dir[j]; }
      }
    } else {
      assert Names(r[k], Cut(name));
      FindSome(r, 0, Cut(name), k);
    }
  }

  /** Inode 65536: dirlink reports success, and the name is still unbound. */
  lemma LinkLost(dir: seq<Dirent>, name: string)
    requires Unique(dir) && Wellformed(dir) && NulFree(name) && Lookup(dir, Cut(name)) == None
    ensures Lookup(Linked(dir, name, 65536), Cut(name)) == None
  {
    LinkAddsOne(dir, name, 65536, Cut(name));
  }

  lemma LinkOther(dir: seq<Dirent>, name: string, inum: nat, other: string)
    requires Unique(dir) && Unique(Linked(dir, name, inum)) && Text(Padded(name)) == Cut(name) && other != Cut(name)
    ensures Lookup(Linked(dir, name, inum), other) == Lookup(dir, other)
  {
    var k, r := FirstEmpty(dir, 0), Linked(dir, name, inum);
    if Lookup(dir, other).Some? {
      var j := FindWhere(dir, 0, other);
      assert j != k && r[j] == dir[j];
      FindSome(r, 0, other, j);
    } else {
      FindNone(dir, 0, other);
      FindNone(r, 0, other);
      forall j | 0 <= j < |r| ensures !Names(r[j], other) {
        if j != k { assert r[j] == dir[j]; }
      }
    }
  }

  // ---------------------------------------------------------- the inode cache

  datatype Slot = Slot(ref: nat, inum: nat, valid: bool)

  /** References to inode x held in slots below k. */
  function Refs(cache: seq<Slot>, x: nat, k: nat): (n: nat)
    requires k <= |cache|
  {
    if k == 0 then 0 else Refs(cache, x, k - 1) + (if cache[k - 1].inum == x then cache[k - 1].ref else 0)
  }

  /** Unused slots below k. */
  function Spare(cache: seq<Slot>, k: nat): (n: nat)
    requires k <= |cache|
  {
    if k == 0 then 0 else Spare(cache, k - 1) + (if cache[k - 1].ref == 0 then 1 else 0)
  }

  function RefsTo(s: Slot, x: nat): (n: nat) { if s.inum == x then s.ref else 0 }

  lemma {:induction false} RefsChange(cache: seq<Slot>, i: nat, s: Slot, x: nat, k: nat)
    requires i < |cache| && k <= |cache|
    ensures Refs(cache[i := s], x, k) == Refs(cache, x, k) + (if i < k then RefsTo(s, x) - RefsTo(cache[i], x) else 0)
  {
    if k > 0 { RefsChange(cache, i, s, x, k - 1); }
  }

  lemma {:induction false} SpareChange(cache: seq<Slot>, i: nat, s: Slot, k: nat)
    requires i < |cache| && k <= |cache|
    ensures Spare(cache[i := s], k) == Spare(cache, k) +
      (if i < k then (if s.ref == 0 then 1 else 0) - (if cache[i].ref == 0 then 1 else 0) else 0)
  {
    if k > 0 { SpareChange(cache, i, s, k - 1); }
  }

  lemma {:induction false} SpareSlot(cache: seq<Slot>, k: nat) returns (i: nat)
    requires k <= |cache| && Spare(cache, k) > 0
    ensures i < k && cache[i].ref == 0
  {
    if cache[k - 1].ref == 0 { i := k - 1; } else { i := SpareSlot(cache, k - 1); }
  }

  ghost predicate Holds(cache: seq<Slot>, inum: nat) { exists i :: 0 <= i < |cache| && cache[i].ref > 0 && cache[i].inum == inum }

  predicate Same(cache: seq<Slot>, j: nat, k: nat)
    requires j < |cache| && k < |cache|
  {
    cache[j].ref > 0 && cache[k].ref > 0 && cache[j].inum == cache[k].inum
  }

  /** No inode is in two slots in use. */
  ghost predicate Single(cache: seq<Slot>) { forall j, k :: 0 <= j < k < |cache| ==> !Same(cache, j, k) }

  /** iget gave slot i for inode x. */
  ghost predicate Got(c: seq<Slot>, r: seq<Slot>, i: nat, x: nat) {
    && i < |c| && (if c[i].ref > 0 then c[i].inum == x else !Holds(c, x))
    && r == c[i := Slot(c[i].ref + 1, x, c[i].ref > 0 && c[i].valid)]
  }

  lemma GotSingle(c: seq<Slot>, r: seq<Slot>, i: nat, x: nat)
    requires Single(c) && Got(c, r, i, x)
    ensures Single(r)
  {
    forall j, k | 0 <= j < k < |r| ensures !Same(r, j, k) { assert !Same(c, j, k); }
  }

  lemma GotRefs(c: seq<Slot>, r: seq<Slot>, i: nat, x: nat, y: nat)
    requires Got(c, r, i, x)
    ensures Refs(r, y, |r|) == Refs(c, y, |c|) + (if y == x then 1 else 0)
  {
    RefsChange(c, i, r[i], y, |c|);
  }

  // ----------------------------------------------------------------- resolving

  datatype Node = Node(isDir: bool, nlink: nat, entries: seq<Dirent>)

  type Tree = map<nat, Node>

  datatype Outcome = Found(inum: nat) | Nothing | Panic

  /** Directory lookups for elems[k..], starting at inode i. A missing inode makes ilock
      panic. */
  function Resolve(fs: Tree, i: nat, elems: seq<string>, k: nat): (r: Outcome)
    requires k <= |elems|
    decreases |elems| - k
  {
    if k == |elems| then Found(i)
    else if i !in fs then Panic
    else if !fs[i].isDir then Nothing
    else
      match Lookup(fs[i].entries, Cut(elems[k]))
      case None => Nothing
      case Some(j) => Resolve(fs, j, elems, k + 1)
  }

  /** namex: the inode of the path, or of the directory its last element is in. */
  function Meaning(fs: Tree, start: nat, elems: seq<string>, parent: bool): (r: Outcome) {
    if !parent then Resolve(fs, start, elems, 0)
    else if elems == [] then Nothing
    else
      var r := Resolve(fs, start, elems[..|elems| - 1], 0);
      if !r.Found? then r else if r.inum !in fs then Panic else if fs[r.inum].isDir then r else Nothing
  }

  lemma {:induction false} ElemEndJoin(p: string, q: string, i: nat)
    requires i <= |p|
    ensures ElemEnd(p + "/" + q, i) == ElemEnd(p, i)
    decreases |p| - i
  {
    if i < |p| && p[i] != '/' { ElemEndJoin(p, q, i + 1); }
  }

  lemma {:induction false} ElementsFrom(p: string, i: nat, q: string, j: nat)
    requires i <= |p| && j <= |q| && p[i..] == q[j..]
    ensures Elements(p, i) == Elements(q, j)
    decreases |p| - i
  {
    SamePositions(p, i, q, j);
    var s, t := Slashes(p, i), Slashes(q, j);
    if s < |p| {
      SamePositions(p, s, q, t);
      var e, f := ElemEnd(p, s), ElemEnd(q, t);
      assert p[s..e] == p[s..][..e - s] == q[t..][..f - t] == q[t..f];
      ElementsFrom(p, e, q, f);
    }
  }

  lemma {:induction false} SamePositions(p: string, i: nat, q: string, j: nat)
    requires i <= |p| && j <= |q| && p[i..] == q[j..]
    ensures Slashes(p, i) - i == Slashes(q, j) - j && p[Slashes(p, i)..] == q[Slashes(q, j)..]
    ensures ElemEnd(p, i) - i == ElemEnd(q, j) - j && p[ElemEnd(p, i)..] == q[ElemEnd(q, j)..]
    decreases |p| - i
  {
    if i < |p| {
      assert p[i] == p[i..][0] == q[j..][0] == q[j];
      assert p[i + 1..] == p[i..][1..] == q[j..][1..] == q[j + 1..];
      SamePositions(p, i + 1, q, j + 1);
    }
  }

  lemma {:induction false} ElementsJoinFrom(p: string, q: string, i: nat)
    requires i <= |p|
    ensures Elements(p + "/" + q, i) == Elements(p, i) + Elements(q, 0)
    decreases |p| - i
  {
    var r := p + "/" + q;
    if i == |p| {
      assert r[i + 1..] == q[0..];
      ElementsSlash(r, i);
      ElementsFrom(r, i + 1, q, 0);
      assert [] + Elements(q, 0) == Elements(q, 0);
    } else if p[i] == '/' {
      ElementsSlash(r, i);
      ElementsSlash(p, i);
      ElementsJoinFrom(p, q, i + 1);
    } else {
      var e := ElemEnd(p, i);
      ElemEndJoin(p, q, i);
      ElementsJoinFrom(p, q, e);
      assert r[i..e] == p[i..e];
      assert [p[i..e]] + (Elements(p, e) + Elements(q, 0)) == [p[i..e]] + Elements(p, e) + Elements(q, 0);
    }
  }

  /** A path followed by a slash and another has the elements of both. */
  lemma ElementsJoin(p: string, q: string)
    ensures Elements(p + "/" + q, 0) == Elements(p, 0) + Elements(q, 0)
  {
    ElementsJoinFrom(p, q, 0);
  }

  lemma {:induction false} ResolveJoin(fs: Tree, i: nat, a: seq<string>, b: seq<string>, k: nat)
    requires k <= |a|
    ensures var r := Resolve(fs, i, a, k);
      Resolve(fs, i, a + b, k) == if r.Found? then Resolve(fs, r.inum, b, 0) else r
    decreases |a| - k
  {
    if k == |a| {
      ResolveShift(fs, i, a, b, 0);
    } else if i in fs && fs[i].isDir && Lookup(fs[i].entries, Cut(a[k])).Some? {
      ResolveJoin(fs, Lookup(fs[i].entries, Cut(a[k])).value, a, b, k + 1);
    }
  }

  lemma {:induction false} ResolveShift(fs: Tree, i: nat, a: seq<string>, b: seq<string>, k: nat)
    requires k <= |b|
    ensures Resolve(fs, i, a + b, |a| + k) == Resolve(fs, i, b, k)
    decreases |b| - k
  {
    if k < |b| && i in fs && fs[i].isDir && Lookup(fs[i].entries, Cut(b[k])).Some? {
      ResolveShift(fs, Lookup(fs[i].entries, Cut(b[k])).value, a, b, k + 1);
    }
  }

  /** namei(p/q) is namei(q) in the directory that is namei(p), and nothing if that is
      nothing; nameiparent(p/q) is namei(p) if q is a single name and that a directory. */
  lemma PathJoin(fs: Tree, start: nat, p: string, q: string)
    ensures var r := Meaning(fs, start, Elements(p, 0), false);
      Meaning(fs, start, Elements(p + "/" + q, 0), false) == if r.Found? then Meaning(fs, r.inum, Elements(q, 0), false) else r
    ensures var r := Meaning(fs, start, Elements(p, 0), false);
      |Elements(q, 0)| == 1 && r.Found? && r.inum in fs ==>
        Meaning(fs, start, Elements(p + "/" + q, 0), true) == if fs[r.inum].isDir then r else Nothing
  {
    ElementsJoin(p, q);
    ResolveJoin(fs, start, Elements(p, 0), Elements(q, 0), 0);
    var a, b := Elements(p, 0), Elements(q, 0);
    assert |b| == 1 ==> (a + b)[..|a + b| - 1] == a;
  }

  ghost predicate Sound(fs: Tree) { forall i :: i in fs ==> Wellformed(fs[i].entries) }

  ghost predicate AllLinked(fs: Tree) { forall i :: i in fs ==> fs[i].nlink > 0 }

  /** The same, in the order in which namex decides. */
  function Follow(fs: Tree, i: nat, elems: seq<string>, k: nat, parent: bool): (r: Outcome)
    requires k <= |elems|
    decreases |elems| - k
  {
    if k == |elems| then if parent then Nothing else Found(i)
    else if i !in fs then Panic
    else if !fs[i].isDir then Nothing
    else if parent && k + 1 == |elems| then Found(i)
    else
      match Lookup(fs[i].entries, Cut(elems[k]))
      case None => Nothing
      case Some(j) => Follow(fs, j, elems, k + 1, parent)
  }

  lemma {:induction false} FollowParent(fs: Tree, i: nat, elems: seq<string>, k: nat)
    requires k < |elems|
    ensures Follow(fs, i, elems, k, true) ==
      var r := Resolve(fs, i, elems[..|elems| - 1], k);
      if !r.Found? then r else if r.inum !in fs then Panic else if fs[r.inum].isDir then r else Nothing
    decreases |elems| - k
  {
    if k + 1 < |elems| && i in fs && fs[i].isDir {
      var l := Lookup(fs[i].entries, Cut(elems[k]));
      if l.Some? { FollowParent(fs, l.value, elems, k + 1); }
    }
  }

  lemma {:induction false} FollowAll(fs: Tree, i: nat, elems: seq<string>, k: nat)
    requires k <= |elems|
    ensures Follow(fs, i, elems, k, false) == Resolve(fs, i, elems, k)
    decreases |elems| - k
  {
    if k < |elems| && i in fs && fs[i].isDir {
      var l := Lookup(fs[i].entries, Cut(elems[k]));
      if l.Some? { FollowAll(fs, l.value, elems, k + 1); }
    }
  }

  /** namex folds directory lookups over the elements of the path. */
  lemma FollowMeaning(fs: Tree, start: nat, elems: seq<string>, parent: bool)
    ensures Follow(fs, start, elems, 0, parent) == Meaning(fs, start, elems, parent)
  {
    if parent && elems != [] { FollowParent(fs, start, elems, 0); }
    if !parent { FollowAll(fs, start, elems, 0); }
  }

  // ----------------------------------------------------- counting references

  /** iput dropped one reference through slot i. */
  predicate Put(c: seq<Slot>, r: seq<Slot>, i: nat) {
    && i < |c| == |r| && c[i].ref > 0 && r == c[i := r[i]]
    && r[i].inum == c[i].inum && r[i].ref == c[i].ref - 1
  }

  lemma PutRefs(c: seq<Slot>, r: seq<Slot>, i: nat, y: nat)
    requires Put(c, r, i)
    ensures Refs(r, y, |r|) == Refs(c, y, |c|) - (if y == c[i].inum then 1 else 0)
  {
    RefsChange(c, i, r[i], y, |c|);
  }

  predicate RefsPlus(c: seq<Slot>, r: seq<Slot>, x: nat, y: nat) {
    Refs(r, y, |r|) == Refs(c, y, |c|) + (if y == x then 1 else 0)
  }

  /** Between c and r one reference was added, to the inode in slot i. The unused slots
      are as many as before, counting slot i if only this reference holds it. */
  ghost predicate Holding(c: seq<Slot>, r: seq<Slot>, i: nat) {
    && i < |r| && r[i].ref > 0 && (forall y: nat :: RefsPlus(c, r, r[i].inum, y))
    && Spare(r, |r|) + (if r[i].ref == 1 then 1 else 0) == Spare(c, |c|)
  }

  ghost predicate Unchanged(c: seq<Slot>, r: seq<Slot>) { forall y: nat :: Refs(r, y, |r|) == Refs(c, y, |c|) }

  lemma HoldStart(c: seq<Slot>, r: seq<Slot>, i: nat, x: nat)
    requires Got(c, r, i, x)
    ensures Holding(c, r, i)
  {
    forall y: nat ensures RefsPlus(c, r, x, y) { GotRefs(c, r, i, x, y); }
    SpareChange(c, i, r[i], |c|);
  }

  lemma HoldValid(c: seq<Slot>, r: seq<Slot>, i: nat)
    requires Holding(c, r, i)
    ensures Holding(c, r[i := r[i].(valid := true)], i)
  {
    var t := r[i := r[i].(valid := true)];
    forall y: nat ensures RefsPlus(c, t, t[i].inum, y) {
      assert RefsPlus(c, r, r[i].inum, y);
      RefsChange(r, i, t[i], y, |r|);
    }
    SpareChange(r, i, t[i], |r|);
  }

  /** From one path element to the next: iget the new inode, iput the old one. */
  lemma HoldStep(c: seq<Slot>, r: seq<Slot>, i: nat, s: seq<Slot>, j: nat, x: nat, t: seq<Slot>)
    requires Holding(c, r, i) && Got(r, s, j, x) && Put(s, t, i)
    ensures Holding(c, t, j)
  {
    forall y: nat ensures RefsPlus(c, t, x, y) {
      assert RefsPlus(c, r, r[i].inum, y);
      GotRefs(r, s, j, x, y);
      PutRefs(s, t, i, y);
    }
    SpareChange(r, j, s[j], |r|);
    SpareChange(s, i, t[i], |s|);
  }

  lemma HoldEnd(c: seq<Slot>, r: seq<Slot>, i: nat, t: seq<Slot>)
    requires Holding(c, r, i) && Put(r, t, i)
    ensures Unchanged(c, t)
  {
    forall y: nat ensures Refs(t, y, |t|) == Refs(c, y, |c|) {
      assert RefsPlus(c, r, r[i].inum, y);
      PutRefs(r, t, i, y);
    }
  }

  lemma {:induction false} RefsHeld(c: seq<Slot>, x: nat, k: nat)
    requires k <= |c|
    ensures Refs(c, x, k) > 0 <==> exists i :: 0 <= i < k && c[i].ref > 0 && c[i].inum == x
  {
    if k > 0 { RefsHeld(c, x, k - 1); }
  }

  /** The references to an inode are all in its one slot. */
  lemma {:induction false} RefsInSlot(c: seq<Slot>, i: nat, k: nat)
    requires Single(c) && i < |c| && c[i].ref > 0 && k <= |c|
    ensures Refs(c, c[i].inum, k) == if i < k then c[i].ref else 0
  {
    if k > 0 {
      RefsInSlot(c, i, k - 1);
      if k - 1 < i { assert !Same(c, k - 1, i); } else if i < k - 1 { assert !Same(c, i, k - 1); }
    }
  }

  /** With inode x held, in addition to what c holds, there is no slot for inode y. */
  ghost predicate NoSlot(c: seq<Slot>, x: nat, y: nat) {
    y != x && !Holds(c, y) && Spare(c, |c|) == if Holds(c, x) then 0 else 1
  }

  /** iget's test, in terms of the cache before the walk. */
  lemma HeldSlots(c: seq<Slot>, r: seq<Slot>, i: nat, y: nat)
    requires Holding(c, r, i) && Single(r)
    ensures !Holds(r, y) && Spare(r, |r|) == 0 <==> NoSlot(c, r[i].inum, y)
  {
    var x := r[i].inum;
    assert RefsPlus(c, r, x, y) && RefsPlus(c, r, x, x);
    RefsHeld(r, y, |r|);
    RefsHeld(c, y, |c|);
    RefsHeld(c, x, |c|);
    RefsInSlot(r, i, |r|);
  }

  /** namex with its cache: it also panics when it needs a slot and there is none. */
  ghost function Walk(fs: Tree, c: seq<Slot>, i: nat, elems: seq<string>, k: nat, parent: bool): (r: Outcome)
    requires k <= |elems|
    decreases |elems| - k
  {
    if k == |elems| then if parent then Nothing else Found(i)
    else if i !in fs then Panic
    else if !fs[i].isDir then Nothing
    else if parent && k + 1 == |elems| then Found(i)
    else
      match Lookup(fs[i].entries, Cut(elems[k]))
      case None => Nothing
      case Some(j) => if NoSlot(c, i, j) then Panic else Walk(fs, c, j, elems, k + 1, parent)
  }

  ghost function WalkFrom(fs: Tree, c: seq<Slot>, path: string, parent: bool, cwd: nat): (r: Outcome)
    requires cwd < |c|
  {
    if path != "" && path[0] == '/' && !Holds(c, ROOTINO) && Spare(c, |c|) == 0 then Panic
    else Walk(fs, c, StartOf(path, c, cwd), Elements(path, 0), 0, parent)
  }

  /** The cache can only turn the answer into a panic, and with two unused slots it
      never does. */
  lemma {:induction false} WalkMeans(fs: Tree, c: seq<Slot>, i: nat, elems: seq<string>, k: nat, parent: bool)
    requires k <= |elems|
    ensures Walk(fs, c, i, elems, k, parent) == Follow(fs, i, elems, k, parent) || Walk(fs, c, i, elems, k, parent) == Panic
    ensures Spare(c, |c|) >= 2 ==> Walk(fs, c, i, elems, k, parent) == Follow(fs, i, elems, k, parent)
    decreases |elems| - k
  {
    if k < |elems| && i in fs && fs[i].isDir {
      var l := Lookup(fs[i].entries, Cut(elems[k]));
      if l.Some? { WalkMeans(fs, c, l.value, elems, k + 1, parent); }
    }
  }

  lemma WalkFromMeans(fs: Tree, c: seq<Slot>, path: string, parent: bool, cwd: nat)
    requires cwd < |c|
    ensures var w, m := WalkFrom(fs, c, path, parent, cwd), Meaning(fs, StartOf(path, c, cwd), Elements(path, 0), parent);
      (w == m || w == Panic) && (Spare(c, |c|) >= 2 ==> w == m)
  {
    FollowMeaning(fs, StartOf(path, c, cwd), Elements(path, 0), parent);
    WalkMeans(fs, c, StartOf(path, c, cwd), Elements(path, 0), 0, parent);
  }

  function StartOf(path: string, cache: seq<Slot>, cwd: nat): (i: nat)
    requires cwd < |cache|
  {
    if path != "" && path[0] == '/' then ROOTINO else cache[cwd].inum
  }

  /** A path that begins with a slash starts at inode 1, whatever the current directory;
      any other starts there. */
  lemma RootOrHere(fs: Tree, c: seq<Slot>, cwd: nat, p: string)
    requires cwd < |c|
    ensures Meaning(fs, StartOf("/" + p, c, cwd), Elements("/" + p, 0), false) == Meaning(fs, 1, Elements(p, 0), false)
    ensures Meaning(fs, StartOf("/", c, cwd), Elements("/", 0), false) == Found(1)
    ensures Meaning(fs, StartOf("", c, cwd), Elements("", 0), false) == Found(c[cwd].inum)
    ensures p != "" && p[0] != '/' ==>
      Meaning(fs, StartOf(p, c, cwd), Elements(p, 0), false) == Meaning(fs, c[cwd].inum, Elements(p, 0), false)
  {
    assert "" + "/" + p == "/" + p;
    ElementsJoin("", p);
    assert [] + Elements(p, 0) == Elements(p, 0);
    ElementsSlash("/", 0);
  }

  /** A reply of namex against what the path means. */
  predicate Answers(r: Reply, cache: seq<Slot>, want: Outcome) {
    match r
    case At(i) => i < |cache| && want == Found(cache[i].inum)
    case Failed => want == Nothing
    case Panicked => want == Panic
  }

  datatype Reply = At(slot: nat) | Failed | Panicked

  class Directory {
    var fs: Tree
    var cache: seq<Slot>

    ghost predicate Valid()
      reads this
    {
      Sound(fs) && Single(cache)
    }

    /** None if the cache is full. */
    method Iget(inum: nat) returns (r: Option<nat>)
      requires Valid()
      modifies `cache
      ensures Valid()
      ensures r.None? <==> !Holds(old(cache), inum) && Spare(old(cache), |old(cache)|) == 0
      ensures r.None? ==> cache == old(cache)
      ensures r.Some? ==> Got(old(cache), cache, r.value, inum)
    {
      var empty: Option<nat> := None;
      var i := 0;
      while i < |cache|
        invariant 0 <= i <= |cache| && cache == old(cache)
        invariant forall j :: 0 <= j < i ==> !(cache[j].ref > 0 && cache[j].inum == inum)
        invariant empty.None? ==> Spare(cache, i) == 0
        invariant empty.Some? ==> empty.value < i && cache[empty.value].ref == 0 && Spare(cache, i) > 0
      {
        if cache[i].ref > 0 && cache[i].inum == inum {
          cache := cache[i := Slot(cache[i].ref + 1, inum, cache[i].valid)];
          GotSingle(old(cache), cache, i, inum);
          return Some(i);
        }
        if empty.None? && cache[i].ref == 0 {
          empty := Some(i);
        }
        i := i + 1;
      }
      if empty.None? {
        return None;
      }
      cache := cache[empty.value := Slot(1, inum, false)];
      GotSingle(old(cache), cache, empty.value, inum);
      return empty;
    }

    method Idup(i: nat)
      requires Valid() && i < |cache| && cache[i].ref > 0
      modifies `cache
      ensures Valid() && |cache| == |old(cache)| && cache[i].inum == old(cache)[i].inum && Got(old(cache), cache, i, cache[i].inum)
    {
      cache := cache[i := Slot(cache[i].ref + 1, cache[i].inum, cache[i].valid)];
      GotSingle(old(cache), cache, i, cache[i].inum);
    }

    /** ilock reads the inode; false if it panics because there is none. */
    method Ilock(i: nat) returns (ok: bool)
      requires Valid() && i < |cache|
      modifies `cache
      ensures Valid() && (ok <==> old(cache)[i].inum in fs)
      ensures cache == if ok then old(cache)[i := old(cache)[i].(valid := true)] else old(cache)
    {
      ok := cache[i].inum in fs;
      if ok {
        ghost var c := cache;
        cache := cache[i := cache[i].(valid := true)];
        forall j, k | 0 <= j < k < |cache| ensures !Same(cache, j, k) { assert !Same(c, j, k); }
      }
    }

    /** iput frees an inode that has neither references nor links left. */
    method Iput(i: nat)
      requires Valid() && i < |cache| && cache[i].ref > 0
      modifies this
      ensures Valid() && Put(old(cache), cache, i)
      ensures var s := old(cache)[i];
        var last := s.ref == 1 && s.valid && s.inum in old(fs) && old(fs)[s.inum].nlink == 0;
        fs == (if last then old(fs) - {s.inum} else old(fs)) && (cache[i].valid <==> s.valid && !last)
      ensures old(AllLinked(fs)) ==> fs == old(fs)
    {
      var s := cache[i];
      if s.ref == 1 && s.valid && s.inum in fs && fs[s.inum].nlink == 0 {
        fs := fs - {s.inum};
        cache := cache[i := s.(valid := false)];
      }
      cache := cache[i := cache[i].(ref := s.ref - 1)];
      forall j, k | 0 <= j < k < |cache| ensures !Same(cache, j, k) { assert !Same(old(cache), j, k); }
    }

    /** dirlookup's scan of the directory in slot i; 0 if the name is not there. */
    method Scan(i: nat, name: string) returns (inum: nat)
      requires Valid() && i < |cache| && cache[i].inum in fs && |name| == DIRSIZ
      ensures var l := Lookup(fs[cache[i].inum].entries, Text(name)); inum == if l.Some? then l.value else 0
    {
      var dir := fs[cache[i].inum].entries;
      var off := 0;
      while off < |dir|
        invariant 0 <= off <= |dir| && Find(dir, off, Text(name)) == Lookup(dir, Text(name))
      {
        SameIff(name, dir[off].name, 0);
        if dir[off].inum != 0 && SameFrom(name, dir[off].name, 0) {
          return dir[off].inum;
        }
        off := off + 1;
      }
      return 0;
    }
  
    /** skipelem's copy of the element path[s..p]. */
    method CopyName(path: string, s: nat, p: nat, name: array<char>)
      requires s <= p <= |path| && name.Length == DIRSIZ && NulFree(path)
      modifies name
      ensures Text(name[..]) == Cut(path[s..p])
    {
      var len := p - s;
      var n := if len >= DIRSIZ then DIRSIZ else len;
      forall k | 0 <= k < n { name[k] := path[s + k]; }
      if len < DIRSIZ {
        name[len] := NUL;
      }
      ghost var elem := Cut(path[s..p]);
      assert forall k :: 0 <= k < |elem| ==> elem[k] == path[s + k];
      TextOf(name[..], elem, 0);
    }

    /** skipelem at position i: None if there is no element left, else the position after
        the element and the slashes behind it. The rest of the name buffer is stale. */
    method SkipElem(path: string, i: nat, name: array<char>) returns (next: Option<nat>)
      requires i <= |path| && name.Length == DIRSIZ && NulFree(path)
      modifies name
      ensures next.None? <==> Elements(path, i) == []
      ensures next.Some? ==> next.value <= |path| && Elements(path, i) == [Elements(path, i)[0]] + Elements(path, next.value)
      ensures next.Some? ==> Text(name[..]) == Cut(Elements(path, i)[0])
      ensures next.Some? ==> (next.value == |path| <==> Elements(path, next.value) == [])
    {
      var p := i;
      while p < |path| && path[p] == '/'
        invariant i <= p <= |path| && Slashes(path, p) == Slashes(path, i)
      {
        p := p + 1;
      }
      if p == |path| {
        return None;
      }
      var s := p;
      while p < |path| && path[p] != '/'
        invariant s <= p <= |path| && ElemEnd(path, p) == ElemEnd(path, s)
      {
        p := p + 1;
      }
      CopyName(path, s, p, name);
      ElementsSettle(path, p);
      ghost var e := p;
      while p < |path| && path[p] == '/'
        invariant e <= p <= |path| && Slashes(path, p) == Slashes(path, e)
      {
        p := p + 1;
      }
      ElementsSettle(path, p);
      return Some(p);
    }
  
    /** dirlookup: the slot of the inode the name is bound to. */
    method Dirlookup(i: nat, name: string) returns (r: Reply)
      requires Valid() && i < |cache| && cache[i].inum in fs && |name| == DIRSIZ
      modifies `cache
      ensures Valid()
      ensures var l := Lookup(fs[old(cache)[i].inum].entries, Text(name));
        && (l.None? ==> r.Failed? && cache == old(cache))
        && (l.Some? ==> !r.Failed?)
        && (r.Panicked? <==> l.Some? && !Holds(old(cache), l.value) && Spare(old(cache), |old(cache)|) == 0)
        && (r.At? ==> l.Some? && Got(old(cache), cache, r.slot, l.value))
    {
      var inum := Scan(i, name);
      FindNonzero(fs[cache[i].inum].entries, 0, Text(name));
      if inum == 0 {
        return Failed;
      }
      var g := Iget(inum);
      if g.None? {
        return Panicked;
      }
      return At(g.value);
    }

    /** dirlink on the directory in slot i; `limit` is the number of entries that fit in
        the largest file. False if the name is taken, Panicked if there is no room. */
    method Dirlink(i: nat, name: string, inum: nat, limit: nat) returns (r: Reply)
      requires Valid() && i < |cache| && cache[i].inum in fs && NulFree(name)
      requires |fs[cache[i].inum].entries| <= limit
      modifies this
      ensures var dir, d := old(fs[cache[i].inum].entries), old(cache[i].inum);
        && (r.Failed? <==> r != Panicked && Lookup(dir, Cut(name)).Some?)
        && (r.Failed? ==> Valid() && Unchanged(old(cache), cache) && (old(AllLinked(fs)) ==> fs == old(fs)))
        && (r.At? ==> Valid() && cache == old(cache) && d in fs && fs == old(fs)[d := old(fs)[d].(entries := Linked(dir, name, inum))])
        && (r.Panicked? <==>
            var l := Lookup(dir, Cut(name));
            if l.Some? then !Holds(old(cache), l.value) && Spare(old(cache), |old(cache)|) == 0
            else FirstEmpty(dir, 0) == limit)
    {
      PaddedText(name);
      var found := Dirlookup(i, Padded(name));
      if found.Panicked? {
        return Panicked;
      }
      if found.At? {
        HoldStart(old(cache), cache, found.slot, cache[found.slot].inum);
        ghost var c := cache;
        Iput(found.slot);
        HoldEnd(old(cache), c, found.slot, cache);
        return Failed;
      }
      var d := cache[i].inum;
      var dir := fs[d].entries;
      var off := 0;
      while off < |dir| && dir[off].inum != 0
        invariant 0 <= off <= |dir| && FirstEmpty(dir, off) == FirstEmpty(dir, 0)
      {
        off := off + 1;
      }
      if off == limit {
        return Panicked;
      }
      var de := Dirent(inum % USHORT, Padded(name));
      fs := fs[d := fs[d].(entries := if off == |dir| then dir + [de] else dir[off := de])];
      return At(i);
    }

    /** The start of namex: the root or the current directory. */
    method Begin(path: string, cwd: nat) returns (r: Option<nat>)
      requires Valid() && cwd < |cache| && cache[cwd].ref > 0
      modifies `cache
      ensures Valid()
      ensures r.None? <==> path != "" && path[0] == '/' && !Holds(old(cache), ROOTINO) && Spare(old(cache), |old(cache)|) == 0
      ensures r.Some? ==> Holding(old(cache), cache, r.value) && cache[r.value].inum == StartOf(path, old(cache), cwd)
    {
      if path != "" && path[0] == '/' {
        r := Iget(ROOTINO);
        if r.Some? { HoldStart(old(cache), cache, r.value, ROOTINO); }
      } else {
        Idup(cwd);
        HoldStart(old(cache), cache, cwd, cache[cwd].inum);
        r := Some(cwd);
      }
    }

    /** One round of namex's loop after ilock: dirlookup, then iunlockput. */
    method Descend(ip: nat, name: string, ghost c: seq<Slot>) returns (r: Reply)
      requires Valid() && ip < |cache| && Holding(c, cache, ip) && cache[ip].inum in fs && |name| == DIRSIZ
      modifies this
      ensures Valid() && (old(AllLinked(fs)) ==> fs == old(fs))
      ensures var l := Lookup(old(fs[cache[ip].inum].entries), Text(name));
        && (r.Failed? ==> l.None? && Unchanged(c, cache))
        && (r.At? ==> l.Some? && Holding(c, cache, r.slot) && cache[r.slot].inum == l.value)
        && (r.Panicked? <==> l.Some? && NoSlot(c, old(cache)[ip].inum, l.value))
    {
      ghost var before := cache;
      ghost var l := Lookup(fs[cache[ip].inum].entries, Text(name));
      if l.Some? { HeldSlots(c, cache, ip, l.value); }
      r := Dirlookup(ip, name);
      if r.Panicked? {
        return;
      }
      ghost var mid := cache;
      Iput(ip);
      if r.At? {
        HoldStep(c, before, ip, mid, r.slot, mid[r.slot].inum, cache);
      } else {
        HoldEnd(c, before, ip, cache);
      }
    }

    /** One round of namex's loop, at element k of the path; `last` tells that it is the
        last one. */
    method Round(ip: nat, name: string, parent: bool, last: bool, ghost c: seq<Slot>, ghost elems: seq<string>, ghost k: nat)
      returns (r: Reply, done: bool)
      requires Valid() && ip < |cache| && Holding(c, cache, ip) && |name| == DIRSIZ
      requires k < |elems| && Text(name) == Cut(elems[k]) && (last <==> k + 1 == |elems|)
      modifies this
      ensures Valid() && (old(AllLinked(fs)) ==> fs == old(fs))
      ensures r.At? ==> Holding(c, cache, r.slot)
      ensures r.Failed? ==> Unchanged(c, cache)
      ensures done && r.At? ==> parent && last
      ensures done ==> Answers(r, cache, Walk(old(fs), c, old(cache)[ip].inum, elems, k, parent))
      ensures !done ==> r.At? && Walk(old(fs), c, old(cache)[ip].inum, elems, k, parent) == Walk(old(fs), c, cache[r.slot].inum, elems, k + 1, parent)
    {
      var ok := Ilock(ip);
      if !ok {
        return Panicked, true;
      }
      HoldValid(c, old(cache), ip);
      if !fs[cache[ip].inum].isDir {
        ghost var before := cache;
        Iput(ip);
        HoldEnd(c, before, ip, cache);
        return Failed, true;
      }
      if parent && last {
        return At(ip), true;
      }
      r := Descend(ip, name, c);
      done := !r.At?;
    }

    /** skipelem, in terms of the elements of the whole path. */
    method NextElem(path: string, pos: nat, name: array<char>, ghost elems: seq<string>, ghost k: nat) returns (next: Option<nat>)
      requires pos <= |path| && name.Length == DIRSIZ && NulFree(path) && k <= |elems| && Elements(path, pos) == elems[k..]
      modifies name
      ensures AtElement(path, next, name[..], elems, k)
    {
      next := SkipElem(path, pos, name);
      if next.Some? {
        assert elems[k..][0] == elems[k] && elems[k..][1..] == elems[k + 1..];
        assert Elements(path, pos)[1..] == Elements(path, next.value);
      }
    }

    /** namex's loop, against its own order of decisions. */
    method Traverse(path: string, parent: bool, cwd: nat, name: array<char>) returns (r: Reply)
      requires Valid() && cwd < |cache| && cache[cwd].ref > 0 && name.Length == DIRSIZ && NulFree(path)
      modifies this, name
      ensures Valid()
      ensures r.At? ==> Holding(old(cache), cache, r.slot)
      ensures r.Failed? ==> Unchanged(old(cache), cache)
      ensures old(AllLinked(fs)) ==> fs == old(fs)
      ensures old(AllLinked(fs)) ==>
        Answers(r, cache, WalkFrom(old(fs), old(cache), path, parent, cwd))
      ensures parent && r.At? ==>
        var elems := Elements(path, 0); elems != [] && Text(name[..]) == Cut(elems[|elems| - 1])
    {
      ghost var c, linked, elems := cache, AllLinked(fs), Elements(path, 0);
      ghost var want := WalkFrom(fs, c, path, parent, cwd);
      var start := Begin(path, cwd);
      if start.None? {
        return Panicked;
      }
      var ip := start.value;
      ghost var k: nat := 0;
      var next := NextElem(path, 0, name, elems, 0);
      while next.Some?
        invariant Valid() && Holding(c, cache, ip) && AtElement(path, next, name[..], elems, k)
        invariant linked ==> fs == old(fs) && want == Walk(fs, c, cache[ip].inum, elems, k, parent)
        decreases |elems| - k
      {
        var done;
        r, done := Round(ip, name[..], parent, next.value == |path|, c, elems, k);
        if done {
          return;
        }
        ip, k := r.slot, k + 1;
        next := NextElem(path, next.value, name, elems, k);
      }
      if parent {
        ghost var before := cache;
        Iput(ip);
        HoldEnd(c, before, ip, cache);
        return Failed;
      }
      return At(ip);
    }

    /** namex. Whatever the path, it leaves all reference counts as they were, plus one
        for the inode it returns. While all inodes are linked, it computes the fold of
        lookups, or panics for want of a cache slot, exactly as `WalkFrom` says; with two
        unused slots it never does that. */
    method Namex(path: string, parent: bool, cwd: nat, name: array<char>) returns (r: Reply)
      requires Valid() && cwd < |cache| && cache[cwd].ref > 0 && name.Length == DIRSIZ && NulFree(path)
      modifies this, name
      ensures Valid()
      ensures r.At? ==> Holding(old(cache), cache, r.slot)
      ensures r.Failed? ==> Unchanged(old(cache), cache)
      ensures old(AllLinked(fs)) ==> fs == old(fs)
      ensures old(AllLinked(fs)) ==> Answers(r, cache, WalkFrom(old(fs), old(cache), path, parent, cwd))
      ensures old(AllLinked(fs)) && (!r.Panicked? || Spare(old(cache), |old(cache)|) >= 2) ==>
        Answers(r, cache, Meaning(old(fs), StartOf(path, old(cache), cwd), Elements(path, 0), parent))
      ensures parent && r.At? ==>
        var elems := Elements(path, 0); elems != [] && Text(name[..]) == Cut(elems[|elems| - 1])
    {
      WalkFromMeans(fs, cache, path, parent, cwd);
      r := Traverse(path, parent, cwd, name);
    }
  }

  /** skipelem has just delivered element k, or found that there is none. */
  ghost predicate AtElement(path: string, next: Option<nat>, name: string, elems: seq<string>, k: nat) {
    && k <= |elems| && (next.None? <==> k == |elems|)
    && (next.Some? ==>
          && next.value <= |path| && Elements(path, next.value) == elems[k + 1..] && Text(name) == Cut(elems[k])
          && (next.value == |path| <==> k + 1 == |elems|))
  }

  lemma {:induction false} FindNonzero(dir: seq<Dirent>, k: nat, name: string)
    requires k <= |dir|
    ensures Find(dir, k, name) != Some(0)
    decreases |dir| - k
  {
    if k < |dir| { FindNonzero(dir, k + 1, name); }
  }
}
