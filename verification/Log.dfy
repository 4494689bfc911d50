/** The redo log of log.c: one transaction at a time, recorded in the last
    `size` sectors of the disk, committed by one header write and installed to
    the home sectors afterwards.

    A disk write of one sector is atomic; a crash may fall between any two
    writes and loses everything that is not on disk. The functions describe the
    disk images that log.c produces, one per sector write; class `Log` at the end is
    the code itself, proved to produce exactly those images. */
module Log {
  import opened Blocks
  import opened Options

  const LOGSIZE: nat := 10

  type Disk = seq<Block>

  /** log.start and log.size. The log occupies the end of the disk, so the home
      sectors are exactly those below `start`. */
  datatype Geometry = Geometry(start: nat, size: nat) {
    predicate Valid() {
      1 <= size && start + size <= 0xFFFF_FFFF
    }

    /** Number of blocks one transaction may hold (log_write's panic guard). */
    function Limit(): nat
      requires Valid()
    {
      if size - 1 < LOGSIZE then size - 1 else LOGSIZE
    }
  }

  /** One logged block: the home sector and its new contents. */
  datatype Write = Write(sector: nat, data: Stored)

  function HeadCount(head: Block): (n: Word) {
    head.words[0]
  }

  function HeadSector(head: Block, i: nat): (s: Word)
    requires i < LOGSIZE
  {
    head.words[1 + i]
  }

  /** A disk that recovery can be started on: the header names at most as many
      blocks as the log holds, and only home sectors. */
  ghost predicate Recoverable(g: Geometry, d: Disk) {
    && g.Valid()
    && |d| == g.start + g.size
    && HeadCount(d[g.start]) <= g.Limit()
    && forall i :: 0 <= i < HeadCount(d[g.start]) ==> HeadSector(d[g.start], i) < g.start
  }

  /** The state between transactions: no committed blocks wait in the log. */
  ghost predicate Clean(g: Geometry, d: Disk) {
    g.Valid() && |d| == g.start + g.size && HeadCount(d[g.start]) == 0
  }

  function Home(g: Geometry, d: Disk): (h: seq<Block>)
    requires g.start <= |d|
  {
    d[..g.start]
  }

  /** The two disks hold the same header and log blocks. */
  ghost predicate SameLog(g: Geometry, d: Disk, e: Disk)
    requires |d| == |e|
  {
    forall i :: g.start <= i < |d| ==> d[i] == e[i]
  }

  ghost predicate SameHome(g: Geometry, d: Disk, e: Disk) {
    |d| == |e| && g.start <= |d| && Home(g, d) == Home(g, e)
  }

  // ---------------------------------------------------------------- recovery

  /** The disk after install_trans has copied the first `k` log blocks home. */
  function Install(g: Geometry, d: Disk, k: nat): (r: Disk)
    requires Recoverable(g, d) && k <= HeadCount(d[g.start])
    ensures |r| == |d| && SameLog(g, d, r)
  {
    if k == 0 then d
    else
      var e := Install(g, d, k - 1);
      e[HeadSector(d[g.start], k - 1) := e[g.start + k]]
  }

  /** write_head: only the count and the first |secs| entries are overwritten. */
  function PutHead(b: Block, secs: seq<Word>): (r: Block)
    requires |secs| <= LOGSIZE
    ensures HeadCount(r) == |secs|
    ensures forall i {:trigger HeadSector(r, i)} :: 0 <= i < |secs| ==> HeadSector(r, i) == secs[i]
  {
    OfWords(seq(PTRS_PER_BLOCK, k requires 0 <= k < PTRS_PER_BLOCK =>
      if k == 0 then |secs| else if k <= |secs| then secs[k - 1] else b.words[k]))
  }

  function WriteHead(g: Geometry, d: Disk, secs: seq<Word>): (r: Disk)
    requires g.Valid() && |d| == g.start + g.size && |secs| <= LOGSIZE
  {
    d[g.start := PutHead(d[g.start], secs)]
  }

  /** What recover_from_log leaves when it runs to its end. */
  function Recover(g: Geometry, d: Disk): (r: Disk)
    requires Recoverable(g, d)
    ensures |r| == |d| && Clean(g, r)
  {
    WriteHead(g, Install(g, d, HeadCount(d[g.start])), [])
  }

  /** The image left by recover_from_log when it is cut off after `cut` disk
      writes; a cut beyond the last write is a complete recovery. */
  function CutRecovery(g: Geometry, d: Disk, cut: nat): (r: Disk)
    requires Recoverable(g, d)
    ensures Recoverable(g, r)
  {
    if cut <= HeadCount(d[g.start]) then Install(g, d, cut) else Recover(g, d)
  }

  /** An install changes only sectors the header names, and a named sector ends
      with a content that does not depend on what it held before. */
  lemma {:induction false} InstallDetermined(g: Geometry, d: Disk, e: Disk, k: nat, s: nat)
    requires Recoverable(g, d) && Recoverable(g, e) && k <= HeadCount(d[g.start])
    requires |d| == |e| && SameLog(g, d, e)
    requires s < |d|
    requires d[s] == e[s] || exists i :: 0 <= i < k && HeadSector(d[g.start], i) == s
    ensures HeadCount(e[g.start]) == HeadCount(d[g.start])
    ensures Install(g, d, k)[s] == Install(g, e, k)[s]
  {
    if k > 0 {
      var d', e' := Install(g, d, k - 1), Install(g, e, k - 1);
      if s != HeadSector(d[g.start], k - 1) {
        InstallDetermined(g, d, e, k - 1, s);
      }
    }
  }

  lemma {:induction false} InstallUntouched(g: Geometry, d: Disk, k: nat, s: nat)
    requires Recoverable(g, d) && k <= HeadCount(d[g.start]) && s < |d|
    requires forall i :: 0 <= i < k ==> HeadSector(d[g.start], i) != s
    ensures Install(g, d, k)[s] == d[s]
  {
    if k > 0 { InstallUntouched(g, d, k - 1, s); }
  }

  /** A partly installed disk is still recoverable, to the same result. */
  lemma PartialInstallRecovers(g: Geometry, d: Disk, k: nat)
    requires Recoverable(g, d) && k <= HeadCount(d[g.start])
    ensures Recoverable(g, Install(g, d, k))
    ensures Recover(g, Install(g, d, k)) == Recover(g, d)
  {
    var n, e := HeadCount(d[g.start]), Install(g, d, k);
    assert Recoverable(g, e);
    forall s | 0 <= s < |d| ensures Install(g, e, n)[s] == Install(g, d, n)[s] {
      if exists i :: 0 <= i < n && HeadSector(d[g.start], i) == s {
      } else {
        InstallUntouched(g, d, k, s);
      }
      InstallDetermined(g, e, d, n, s);
    }
    assert Install(g, e, n) == Install(g, d, n);
  }

  /** Recovering a clean disk only rewrites the header. */
  lemma CleanRecovers(g: Geometry, d: Disk)
    requires Clean(g, d)
    ensures Recoverable(g, d) && Home(g, Recover(g, d)) == Home(g, d)
  {
  }

  /** A complete recovery leaves nothing for the next one to do. */
  lemma RecoverTwice(g: Geometry, d: Disk)
    requires Recoverable(g, d)
    ensures Recoverable(g, Recover(g, d)) && Recover(g, Recover(g, d)) == Recover(g, d)
  {
    var r := Recover(g, d);
    assert PutHead(r[g.start], []).words == r[g.start].words;
  }

  lemma CutRecoverySame(g: Geometry, d: Disk, cut: nat)
    requires Recoverable(g, d)
    ensures Recover(g, CutRecovery(g, d, cut)) == Recover(g, d)
  {
    if cut <= HeadCount(d[g.start]) {
      PartialInstallRecovers(g, d, cut);
    } else {
      RecoverTwice(g, d);
    }
  }

  /** A series of reboots, each of whose recoveries was cut off somewhere:
      boots[i + 1] is what the recovery started on boots[i] left behind. */
  ghost predicate CutReboots(g: Geometry, boots: seq<Disk>) {
    && boots != []
    && Recoverable(g, boots[0])
    && forall i :: 0 < i < |boots| ==> CutReboot(g, boots[i - 1], boots[i])
  }

  ghost predicate CutReboot(g: Geometry, d: Disk, e: Disk) {
    Recoverable(g, d) && exists cut: nat :: e == CutRecovery(g, d, cut)
  }

  /** However often recovery crashes, running it once to the end gives what an
      uninterrupted recovery of the first image would have given. */
  lemma {:induction false} RebootsHarmless(g: Geometry, boots: seq<Disk>)
    requires CutReboots(g, boots)
    ensures Recoverable(g, boots[|boots| - 1])
    ensures Recover(g, boots[|boots| - 1]) == Recover(g, boots[0])
  {
    var n := |boots| - 1;
    if n > 0 {
      RebootsHarmless(g, boots[..n]);
      assert CutReboot(g, boots[n - 1], boots[n]);
      var cut: nat :| boots[n] == CutRecovery(g, boots[n - 1], cut);
      CutRecoverySame(g, boots[n - 1], cut);
    }
  }

  // ------------------------------------------------------------ transactions

  /** An open transaction: the disk, the dirty buffers that log_write keeps in
      the cache, and the sector list of the in-memory header. */
  datatype Txn = Txn(disk: Disk, pinned: map<nat, Block>, secs: seq<nat>)

  /** What bread returns during the transaction. */
  function View(t: Txn, s: nat): (b: Block)
    requires s < |t.disk|
  {
    if s in t.pinned then t.pinned[s] else t.disk[s]
  }

  ghost predicate Open(g: Geometry, t: Txn) {
    && Clean(g, t.disk)
    && |t.secs| <= g.Limit()
    && (forall i, j :: 0 <= i < j < |t.secs| ==> t.secs[i] != t.secs[j])
    && (forall i :: 0 <= i < |t.secs| ==> t.secs[i] < g.start)
    && (forall i :: 0 <= i < |t.secs| ==> SlotHolds(g, t, i))
    && t.pinned.Keys == SectorSet(t.secs)
    && (forall s :: s in t.pinned ==> s < g.start)
  }

  /** Log block `i` holds the pinned contents of a home sector. */
  ghost predicate SlotHolds(g: Geometry, t: Txn, i: nat)
    requires g.Valid() && |t.disk| == g.start + g.size && i < |t.secs| <= g.Limit()
  {
    && t.secs[i] in t.pinned
    && t.disk[g.start + 1 + i] == t.pinned[t.secs[i]]
  }

  function SectorSet(secs: seq<nat>): (r: set<nat>) {
    FirstSectors(secs, |secs|)
  }

  function FirstSectors(secs: seq<nat>, k: nat): (r: set<nat>)
    requires k <= |secs|
  {
    if k == 0 then {} else FirstSectors(secs, k - 1) + {secs[k - 1]}
  }

  lemma {:induction false} SectorSetIndex(secs: seq<nat>, k: nat, s: nat) returns (i: nat)
    requires k <= |secs| && s in FirstSectors(secs, k)
    ensures i < k && secs[i] == s
  {
    if secs[k - 1] == s { i := k - 1; } else { i := SectorSetIndex(secs, k - 1, s); }
  }

  lemma {:induction false} SectorSetMember(secs: seq<nat>, k: nat, i: nat)
    requires i < k <= |secs|
    ensures secs[i] in FirstSectors(secs, k)
  {
    if i < k - 1 { SectorSetMember(secs, k - 1, i); }
  }

  lemma {:induction false} FirstSectorsPrefix(secs: seq<nat>, secs': seq<nat>, k: nat)
    requires k <= |secs| && k <= |secs'|
    requires forall i :: 0 <= i < k ==> secs[i] == secs'[i]
    ensures FirstSectors(secs, k) == FirstSectors(secs', k)
  {
    if k > 0 { FirstSectorsPrefix(secs, secs', k - 1); }
  }

  /** log_write's absorption search: the entry for `s`, or the next free one. */
  function Slot(secs: seq<nat>, s: nat): (i: nat)
    ensures i <= |secs|
    ensures i < |secs| ==> secs[i] == s
    ensures forall j :: 0 <= j < i ==> secs[j] != s
  {
    SlotFrom(secs, s, 0)
  }

  function SlotFrom(secs: seq<nat>, s: nat, k: nat): (i: nat)
    requires k <= |secs|
    ensures k <= i <= |secs|
    ensures i < |secs| ==> secs[i] == s
    ensures forall j :: k <= j < i ==> secs[j] != s
    decreases |secs| - k
  {
    if k == |secs| || secs[k] == s then k else SlotFrom(secs, s, k + 1)
  }

  /** One log_write. */
  function Logged(g: Geometry, t: Txn, w: Write): (r: Txn)
    requires Open(g, t) && |t.secs| < g.Limit() && w.sector < g.start
  {
    var i := Slot(t.secs, w.sector);
    Txn(t.disk[g.start + 1 + i := w.data],
        t.pinned[w.sector := w.data],
        if i < |t.secs| then t.secs else t.secs + [w.sector])
  }

  /** log_write keeps the transaction well formed. */
  lemma LoggedOpen(g: Geometry, t: Txn, w: Write)
    requires Open(g, t) && |t.secs| < g.Limit() && w.sector < g.start
    ensures Open(g, Logged(g, t, w))
  {
    var r := Logged(g, t, w);
    assert r.secs[Slot(t.secs, w.sector)] == w.sector;
    forall j | 0 <= j < |r.secs| ensures SlotHolds(g, r, j) { LoggedSlot(g, t, w, j); }
    assert r.pinned.Keys == SectorSet(r.secs) by { LoggedKeys(g, t, w); }
  }

  lemma LoggedKeys(g: Geometry, t: Txn, w: Write)
    requires Open(g, t) && |t.secs| < g.Limit() && w.sector < g.start
    ensures SectorSet(Logged(g, t, w).secs) == SectorSet(t.secs) + {w.sector}
  {
    var i := Slot(t.secs, w.sector);
    if i < |t.secs| {
      SectorSetMember(t.secs, |t.secs|, i);
    } else {
      FirstSectorsPrefix(t.secs, t.secs + [w.sector], |t.secs|);
    }
  }

  lemma LoggedSlot(g: Geometry, t: Txn, w: Write, j: nat)
    requires Open(g, t) && |t.secs| < g.Limit() && w.sector < g.start
    requires j < |Logged(g, t, w).secs|
    ensures SlotHolds(g, Logged(g, t, w), j)
  {
    var i := Slot(t.secs, w.sector);
    if j != i { assert SlotHolds(g, t, j) && t.secs[j] != w.sector; }
  }

  /** log_write leaves every home sector on disk alone, and readers see exactly
      the one new block. */
  lemma LoggedView(g: Geometry, t: Txn, w: Write, s: nat)
    requires Open(g, t) && |t.secs| < g.Limit() && w.sector < g.start && s < g.start
    ensures Logged(g, t, w).disk[s] == t.disk[s]
    ensures View(Logged(g, t, w), s) == if s == w.sector then w.data else View(t, s)
  {
  }

  /** begin_trans followed by log_write for each of `writes`; None if log_write
      panics because the transaction is too big, or if a write is to the log itself,
      which log_write does not notice. */
  function Run(g: Geometry, d: Disk, writes: seq<Write>): (t: Option<Txn>)
    requires Clean(g, d)
    ensures t.Some? ==> Open(g, t.value) && SameHome(g, d, t.value.disk)
  {
    if writes == [] then Some(Txn(d, map[], []))
    else
      var n := |writes| - 1;
      var t := Run(g, d, writes[..n]);
      if t.None? || g.Limit() <= |t.value.secs| || g.start <= writes[n].sector then None
      else
        LoggedOpen(g, t.value, writes[n]);
        Some(Logged(g, t.value, writes[n]))
  }

  /** The distinct sectors of a list of writes. */
  function SectorsOf(writes: seq<Write>): (r: set<nat>) {
    if writes == [] then {}
    else SectorsOf(writes[..|writes| - 1]) + {writes[|writes| - 1].sector}
  }

  /** log_write accepts all of `writes`: before each of them the header lists fewer
      sectors than `limit`. */
  predicate HasRoom(limit: nat, writes: seq<Write>) {
    writes != [] ==>
      HasRoom(limit, writes[..|writes| - 1]) && |SectorsOf(writes[..|writes| - 1])| < limit
  }

  /** No write is to the log's own sectors. */
  predicate AtHome(start: nat, writes: seq<Write>) {
    forall i :: 0 <= i < |writes| ==> writes[i].sector < start
  }

  lemma AtHomeLast(start: nat, writes: seq<Write>)
    requires writes != []
    ensures AtHome(start, writes) <==> AtHome(start, writes[..|writes| - 1]) && writes[|writes| - 1].sector < start
  {
    var n := |writes| - 1;
    forall i | 0 <= i < n ensures writes[..n][i] == writes[i] { }
  }

  /** Exactly when a transaction runs: its writes are to home sectors, and log_write
      panics on none of them. Absorption makes the log hold each sector once. */
  lemma {:induction false} RunFits(g: Geometry, d: Disk, writes: seq<Write>)
    requires Clean(g, d)
    ensures Run(g, d, writes).Some? <==> AtHome(g.start, writes) && HasRoom(g.Limit(), writes)
    ensures Run(g, d, writes).Some? ==>
      var secs := Run(g, d, writes).value.secs;
      SectorSet(secs) == SectorsOf(writes) && |secs| == |SectorsOf(writes)|
  {
    if writes != [] {
      var n := |writes| - 1;
      AtHomeLast(g.start, writes);
      RunFits(g, d, writes[..n]);
      if Run(g, d, writes).Some? {
        LoggedKeys(g, Run(g, d, writes[..n]).value, writes[n]);
        var secs := Run(g, d, writes).value.secs;
        DistinctCount(secs, |secs|);
      }
    }
  }

  lemma {:induction false} DistinctCount(secs: seq<nat>, k: nat)
    requires k <= |secs|
    requires forall i, j :: 0 <= i < j < |secs| ==> secs[i] != secs[j]
    ensures |FirstSectors(secs, k)| == k
  {
    if k > 0 {
      DistinctCount(secs, k - 1);
      if secs[k - 1] in FirstSectors(secs, k - 1) {
        var i := SectorSetIndex(secs, k - 1, secs[k - 1]);
      }
    }
  }

  /** The meaning of a transaction: its writes, applied in order. */
  function Apply(h: seq<Block>, writes: seq<Write>): (r: seq<Block>)
    ensures |r| == |h|
  {
    if writes == [] then h
    else
      var n := |writes| - 1;
      var r := Apply(h, writes[..n]);
      if writes[n].sector < |h| then r[writes[n].sector := writes[n].data] else r
  }

  lemma ApplyOne(h: seq<Block>, writes: seq<Write>, w: Write)
    ensures Apply(h, writes + [w]) ==
      if w.sector < |h| then Apply(h, writes)[w.sector := w.data] else Apply(h, writes)
    ensures SectorsOf(writes + [w]) == SectorsOf(writes) + {w.sector}
  {
    assert (writes + [w])[..|writes|] == writes;
  }

  /** Transactions keep the two views of every sector in step. */
  lemma {:induction false} ApplyWhole(h: seq<Block>, writes: seq<Write>)
    requires Whole(h)
    ensures Whole(Apply(h, writes))
  {
    if writes != [] { ApplyWhole(h, writes[..|writes| - 1]); }
  }

  /** Inside a transaction readers see all of its writes so far. */
  lemma {:induction false} RunView(g: Geometry, d: Disk, writes: seq<Write>, s: nat)
    requires Clean(g, d) && Run(g, d, writes).Some? && s < g.start
    ensures View(Run(g, d, writes).value, s) == Apply(Home(g, d), writes)[s]
  {
    if writes != [] {
      var n := |writes| - 1;
      RunView(g, d, writes[..n], s);
      LoggedView(g, Run(g, d, writes[..n]).value, writes[n], s);
    }
  }

  /** The disk image after commit_trans has written the header and `j` more
      sectors: commit and recovery install the same way. */
  function CommitImage(g: Geometry, t: Txn, j: nat): (r: Disk)
    requires Open(g, t)
    ensures Recoverable(g, r)
  {
    CommittedRecoverable(g, t);
    CutRecovery(g, WriteHead(g, t.disk, t.secs), j)
  }

  lemma CommittedRecoverable(g: Geometry, t: Txn)
    requires Open(g, t)
    ensures Recoverable(g, WriteHead(g, t.disk, t.secs))
    ensures HeadCount(WriteHead(g, t.disk, t.secs)[g.start]) == |t.secs|
  {
  }

  lemma {:induction false} InstalledContent(g: Geometry, d: Disk, k: nat, i: nat)
    requires Recoverable(g, d) && i < k <= HeadCount(d[g.start])
    requires forall a, b :: 0 <= a < b < k ==> HeadSector(d[g.start], a) != HeadSector(d[g.start], b)
    ensures Install(g, d, k)[HeadSector(d[g.start], i)] == d[g.start + 1 + i]
  {
    if i < k - 1 { InstalledContent(g, d, k - 1, i); }
  }

  lemma InstallLogged(g: Geometry, t: Txn, s: nat)
    requires Open(g, t) && s in t.pinned
    requires Recoverable(g, WriteHead(g, t.disk, t.secs))
    ensures Install(g, WriteHead(g, t.disk, t.secs), |t.secs|)[s] == t.pinned[s]
  {
    var h := WriteHead(g, t.disk, t.secs);
    var i := SectorSetIndex(t.secs, |t.secs|, s);
    assert HeadSector(h[g.start], i) == s;
    assert SlotHolds(g, t, i);
    InstalledContent(g, h, |t.secs|, i);
  }

  lemma InstallUnlogged(g: Geometry, t: Txn, s: nat)
    requires Open(g, t) && s < g.start && s !in t.pinned
    requires Recoverable(g, WriteHead(g, t.disk, t.secs))
    ensures Install(g, WriteHead(g, t.disk, t.secs), |t.secs|)[s] == t.disk[s]
  {
    var h := WriteHead(g, t.disk, t.secs);
    forall i | 0 <= i < |t.secs| ensures HeadSector(h[g.start], i) != s { assert SlotHolds(g, t, i); }
    InstallUntouched(g, h, |t.secs|, s);
  }

  /** Where a crash can fall in a transaction: after some of its log_writes, or
      after the commit header and `j` more sector writes of commit_trans. */
  datatype CrashPoint = Logging(k: nat) | Committed(j: nat)

  function CrashImage(g: Geometry, t: Txn, p: CrashPoint): (r: Disk)
    requires Open(g, t)
    ensures Recoverable(g, r)
  {
    if p.Committed? && t.secs != [] then CommitImage(g, t, p.j) else t.disk
  }

  /** The transaction as far as it got before the crash. */
  function Reached(writes: seq<Write>, p: CrashPoint): (r: seq<Write>) {
    if p.Logging? && p.k <= |writes| then writes[..p.k] else writes
  }

  /** Once the header is on disk, recovery produces what readers saw at commit. */
  lemma CommittedView(g: Geometry, t: Txn, p: CrashPoint, s: nat)
    requires Open(g, t) && s < g.start && p.Committed?
    ensures Recover(g, CrashImage(g, t, p))[s] == View(t, s)
  {
    if t.secs == [] {
      CleanRecovers(g, t.disk);
    } else {
      CommittedRecoverable(g, t);
      CutRecoverySame(g, WriteHead(g, t.disk, t.secs), p.j);
      if s in t.pinned { InstallLogged(g, t, s); } else { InstallUnlogged(g, t, s); }
    }
  }

  /** The disk with the commit header, or after everything is installed. */
  function CommittedHead(g: Geometry, t: Txn, installed: bool): (r: Disk)
    requires Open(g, t)
    ensures |r| == |t.disk|
  {
    CommittedRecoverable(g, t);
    if installed then Recover(g, WriteHead(g, t.disk, t.secs)) else WriteHead(g, t.disk, t.secs)
  }

  lemma CommittedDisk(g: Geometry, t: Txn)
    requires Open(g, t) && t.secs != []
    ensures Clean(g, CommittedHead(g, t, true))
    ensures forall s :: 0 <= s < g.start ==> CommittedHead(g, t, true)[s] == View(t, s)
  {
    CommittedRecoverable(g, t);
    forall s | 0 <= s < g.start ensures CommittedHead(g, t, true)[s] == View(t, s) {
      CommittedView(g, t, Committed(|t.secs| + 1), s);
    }
  }

  /** Crash atomicity. Cut a transaction off at any point, then let any number
      of recoveries crash as well: the first complete recovery leaves the home
      sectors as they were, or with every write of the transaction applied, and
      the latter exactly when the commit header reached the disk. */
  lemma CrashAtomicity(g: Geometry, d: Disk, writes: seq<Write>, p: CrashPoint, boots: seq<Disk>)
    requires Clean(g, d) && Run(g, d, Reached(writes, p)).Some?
    requires CutReboots(g, boots) && boots[0] == CrashImage(g, Run(g, d, Reached(writes, p)).value, p)
    ensures Recoverable(g, boots[|boots| - 1])
    ensures Home(g, Recover(g, boots[|boots| - 1]))
         == if p.Committed? then Apply(Home(g, d), writes) else Home(g, d)
  {
    RebootsHarmless(g, boots);
    var t := Run(g, d, Reached(writes, p)).value;
    if p.Committed? {
      CommittedImage(g, d, writes, p);
    } else {
      CleanRecovers(g, t.disk);
    }
  }

  lemma CommittedImage(g: Geometry, d: Disk, writes: seq<Write>, p: CrashPoint)
    requires Clean(g, d) && Run(g, d, writes).Some? && p.Committed?
    ensures Home(g, Recover(g, CrashImage(g, Run(g, d, writes).value, p))) == Apply(Home(g, d), writes)
  {
    var t := Run(g, d, writes).value;
    var e := CrashImage(g, t, p);
    forall s | 0 <= s < g.start ensures Home(g, Recover(g, e))[s] == Apply(Home(g, d), writes)[s] {
      CommittedView(g, t, p, s);
      RunView(g, d, writes, s);
    }
  }

  // ------------------------------------------------------ histories of crashes

  /** One life of the machine: a transaction, the point it got to, and a disk
      that some number of cut-off recoveries and one complete one lead to. */
  datatype Life = Life(writes: seq<Write>, p: CrashPoint)

  ghost predicate Lived(g: Geometry, d: Disk, l: Life, e: Disk) {
    && Clean(g, d)
    && Run(g, d, Reached(l.writes, l.p)).Some?
    && exists boots :: RecoveredThrough(g, CrashImage(g, Run(g, d, Reached(l.writes, l.p)).value, l.p), boots, e)
  }

  ghost predicate RecoveredThrough(g: Geometry, image: Disk, boots: seq<Disk>, e: Disk) {
    && CutReboots(g, boots)
    && boots[0] == image
    && Recoverable(g, boots[|boots| - 1])
    && e == Recover(g, boots[|boots| - 1])
  }

  ghost predicate History(g: Geometry, disks: seq<Disk>, lives: seq<Life>) {
    && |disks| == |lives| + 1
    && Clean(g, disks[0])
    && forall i :: 0 <= i < |lives| ==> Lived(g, disks[i], lives[i], disks[i + 1])
  }

  /** The home sectors after exactly the committed transactions, in order. */
  function Survivors(h: seq<Block>, lives: seq<Life>): (r: seq<Block>)
    ensures |r| == |h|
  {
    if lives == [] then h
    else
      var n := |lives| - 1;
      var r := Survivors(h, lives[..n]);
      if lives[n].p.Committed? then Apply(r, lives[n].writes) else r
  }

  /** Over any number of lives, with crashes anywhere in transactions and in
      recoveries, the disk holds exactly the transactions whose commit header was
      written, each of them whole, in the order they were committed. */
  lemma {:induction false} HistoryAtomic(g: Geometry, disks: seq<Disk>, lives: seq<Life>)
    requires History(g, disks, lives)
    ensures Clean(g, disks[|lives|])
    ensures Home(g, disks[|lives|]) == Survivors(Home(g, disks[0]), lives)
  {
    if lives != [] {
      var n := |lives| - 1;
      HistoryAtomic(g, disks[..n + 1], lives[..n]);
      assert Lived(g, disks[n], lives[n], disks[n + 1]);
      LifeAtomic(g, disks[n], lives[n], disks[n + 1]);
    }
  }

  lemma LifeAtomic(g: Geometry, d: Disk, l: Life, e: Disk)
    requires Lived(g, d, l, e)
    ensures Clean(g, e)
    ensures Home(g, e) == if l.p.Committed? then Apply(Home(g, d), l.writes) else Home(g, d)
  {
    var image := CrashImage(g, Run(g, d, Reached(l.writes, l.p)).value, l.p);
    var boots :| RecoveredThrough(g, image, boots, e);
    CrashAtomicity(g, d, l.writes, l.p, boots);
  }

  // ---------------------------------------------------------------- the code

  datatype Outcome = Done | PanicTooBig | PanicOutside

  lemma SlotUnique(secs: seq<nat>, s: nat, i: nat)
    requires i <= |secs| && (i < |secs| ==> secs[i] == s)
    requires forall k :: 0 <= k < i ==> secs[k] != s
    ensures Slot(secs, s) == i
  {
  }

  lemma NothingLeft(keys: set<nat>, secs: seq<nat>)
    requires keys <= SectorSet(secs)
    requires forall k :: 0 <= k < |secs| ==> secs[k] !in keys
    ensures keys == {}
  {
    if keys != {} {
      var s :| s in keys;
      var i := SectorSetIndex(secs, |secs|, s);
    }
  }

  /** What a crash can leave after each sector write of install_trans ... */
  ghost function InstallImages(g: Geometry, d: Disk, n: nat): (r: seq<Disk>)
    requires Recoverable(g, d) && n <= HeadCount(d[g.start])
  {
    seq(n, j requires 0 <= j < n => Install(g, d, j + 1))
  }

  lemma InstallImagesSnoc(g: Geometry, d: Disk, n: nat)
    requires Recoverable(g, d) && n < HeadCount(d[g.start])
    ensures InstallImages(g, d, n + 1) == InstallImages(g, d, n) + [Install(g, d, n + 1)]
  {
  }

  /** ... of recover_from_log ... */
  ghost function RecoveryImages(g: Geometry, d: Disk): (r: seq<Disk>)
    requires Recoverable(g, d)
  {
    seq(HeadCount(d[g.start]) + 1, j requires 0 <= j => CutRecovery(g, d, j + 1))
  }

  /** ... and of commit_trans. */
  ghost function CommitImages(g: Geometry, t: Txn): (r: seq<Disk>)
    requires Open(g, t)
  {
    seq(|t.secs| + 2, j requires 0 <= j => CrashImage(g, t, Committed(j)))
  }

  lemma RecoveryImagesSplit(g: Geometry, d: Disk)
    requires Recoverable(g, d)
    ensures RecoveryImages(g, d) == InstallImages(g, d, HeadCount(d[g.start])) + [Recover(g, d)]
  {
  }

  lemma CommitImagesSplit(g: Geometry, t: Txn)
    requires Open(g, t) && t.secs != []
    ensures var h := WriteHead(g, t.disk, t.secs);
            Recoverable(g, h) && CommitImages(g, t) == [h] + RecoveryImages(g, h)
  {
    CommittedRecoverable(g, t);
  }

  /** The header that commit_trans writes names what is pinned. */
  lemma CommittedHeader(g: Geometry, t: Txn)
    requires Open(g, t)
    ensures var h := WriteHead(g, t.disk, t.secs);
            && Recoverable(g, h) && HeadCount(h[g.start]) == |t.secs|
            && forall i :: 0 <= i < |t.secs| ==> HeadSector(h[g.start], i) == t.secs[i]
  {
    CommittedRecoverable(g, t);
  }

  class Log {
    const g: Geometry

    /** The device, and the buffers that are dirty in the cache. */
    var disk: Disk
    var pinned: map<nat, Block>

    /** log.lh and log.busy */
    var n: nat
    var sector: seq<nat>
    var busy: bool

    /** The device after each sector write: where a crash may leave it. */
    ghost var images: seq<Disk>

    ghost predicate Valid()
      reads this
    {
      && |sector| == LOGSIZE
      && n <= LOGSIZE
      && Open(g, Abs())
      && (!busy ==> n == 0)
    }

    ghost function Abs(): (t: Txn)
      reads this
      requires n <= |sector|
    {
      Txn(disk, pinned, sector[..n])
    }

    /** Power-on: the device holds `d`, everything else is lost. */
    constructor (g: Geometry, d: Disk)
      requires Recoverable(g, d)
      ensures this.g == g && disk == d && pinned == map[] && n == 0 && |sector| == LOGSIZE
      ensures !busy && images == [d]
    {
      this.g, disk, pinned, n, busy := g, d, map[], 0, false;
      sector := seq(LOGSIZE, _ => 0);
      images := [d];
    }

    function Bread(s: nat): (b: Block)
      reads this
      requires s < |disk|
    {
      if s in pinned then pinned[s] else disk[s]
    }

    method Bwrite(s: nat, b: Block)
      requires s < |disk|
      modifies `disk, `pinned, `images
      ensures disk == old(disk)[s := b]
      ensures pinned == old(pinned) - {s}
      ensures images == old(images) + [disk]
    {
      disk := disk[s := b];
      pinned := pinned - {s};
      images := images + [disk];
    }

    method WriteHeader()
      requires g.Valid() && |disk| == g.start + g.size && g.start !in pinned
      requires n <= |sector| == LOGSIZE
      requires forall i :: 0 <= i < n ==> sector[i] < g.start
      modifies `disk, `pinned, `images
      ensures disk == WriteHead(g, old(disk), sector[..n])
      ensures pinned == old(pinned)
      ensures images == old(images) + [disk]
    {
      var buf: seq<Word> := Bread(g.start).words;
      buf := buf[0 := n];
      var i := 0;
      while i < n
        invariant 0 <= i <= n && |buf| == PTRS_PER_BLOCK
        invariant forall k :: 0 <= k < PTRS_PER_BLOCK ==>
          buf[k] == if k == 0 then n else if k <= i then sector[k - 1] else disk[g.start].words[k]
      {
        buf := buf[1 + i := sector[i]];
        i := i + 1;
      }
      assert buf == PutHead(disk[g.start], sector[..n]).words;
      Bwrite(g.start, OfWords(buf));
      assert pinned == old(pinned);
    }

    method ReadHeader()
      requires Recoverable(g, disk) && g.start !in pinned && |sector| == LOGSIZE
      modifies `n, `sector
      ensures n == HeadCount(disk[g.start]) && |sector| == LOGSIZE
      ensures forall i :: 0 <= i < n ==> sector[i] == HeadSector(disk[g.start], i)
    {
      var buf := Bread(g.start);
      n := buf.words[0];
      var i := 0;
      while i < n
        invariant n == buf.words[0] && 0 <= i <= n && |sector| == LOGSIZE
        invariant forall k :: 0 <= k < i ==> sector[k] == HeadSector(buf, k)
      {
        sector := sector[i := buf.words[1 + i]];
        i := i + 1;
      }
    }

    method InstallTrans()
      requires Recoverable(g, disk) && |sector| == LOGSIZE
      requires n == HeadCount(disk[g.start])
      requires forall i :: 0 <= i < n ==> sector[i] == HeadSector(disk[g.start], i)
      requires pinned.Keys <= SectorSet(sector[..n])
      requires forall s :: s in pinned ==> s < g.start
      modifies `disk, `pinned, `images
      ensures disk == Install(g, old(disk), n) && pinned == map[]
      ensures images == old(images) + InstallImages(g, old(disk), n)
    {
      var tail := 0;
      while tail < n
        invariant 0 <= tail <= n
        invariant disk == Install(g, old(disk), tail)
        invariant pinned.Keys <= old(pinned.Keys)
        invariant forall k :: 0 <= k < tail ==> sector[k] !in pinned
        invariant images == old(images) + InstallImages(g, old(disk), tail)
      {
        var lbuf := Bread(g.start + tail + 1);
        InstallImagesSnoc(g, old(disk), tail);
        Bwrite(sector[tail], lbuf);
        tail := tail + 1;
      }
      NothingLeft(pinned.Keys, sector[..n]);
    }

    /** install_trans, then the header without entries: the end of both
        recover_from_log and commit_trans. */
    method InstallAndClear()
      requires Recoverable(g, disk) && |sector| == LOGSIZE
      requires n == HeadCount(disk[g.start])
      requires forall i :: 0 <= i < n ==> sector[i] == HeadSector(disk[g.start], i)
      requires pinned.Keys <= SectorSet(sector[..n])
      requires forall s :: s in pinned ==> s < g.start
      modifies `disk, `pinned, `images, `n
      ensures n == 0 && pinned == map[] && disk == Recover(g, old(disk))
      ensures images == old(images) + RecoveryImages(g, old(disk))
    {
      InstallTrans();
      RecoveryImagesSplit(g, old(disk));
      n := 0;
      assert sector[..n] == [];
      WriteHeader();
    }

    /** Run at boot, before any transaction. */
    method RecoverFromLog()
      requires Recoverable(g, disk) && pinned == map[] && |sector| == LOGSIZE && !busy
      modifies this
      ensures Valid() && !busy && pinned == map[] && n == 0
      ensures disk == Recover(g, old(disk))
      ensures images == old(images) + RecoveryImages(g, old(disk))
    {
      ReadHeader();
      InstallAndClear();
    }

    /** begin_trans, once it no longer has to wait for another transaction. */
    method BeginTrans()
      requires Valid() && !busy
      modifies `busy
      ensures Valid() && busy && Run(g, disk, []) == Some(Abs())
    {
      busy := true;
      assert sector[..n] == [];
      assert pinned == map[];
    }

    /** log_write's search for an entry it can absorb the write into. */
    method Absorb(s: nat) returns (i: nat)
      requires n <= |sector|
      ensures i == Slot(sector[..n], s)
    {
      i := 0;
      while i < n && sector[i] != s
        invariant 0 <= i <= n
        invariant forall k :: 0 <= k < i ==> sector[k] != s
      {
        i := i + 1;
      }
      SlotUnique(sector[..n], s, i);
    }

    /** The caller has changed the buffer of home sector `s` to `b`. */
    method LogWrite(s: nat, b: Stored) returns (r: Outcome)
      requires Valid() && s < g.start
      modifies `disk, `pinned, `images, `n, `sector
      ensures Valid()
      ensures r == if g.Limit() <= old(n) then PanicTooBig else if !busy then PanicOutside else Done
      ensures r != Done ==> unchanged(this)
      ensures r == Done ==>
        Abs() == Logged(g, old(Abs()), Write(s, b)) && images == old(images) + [disk]
    {
      if n >= LOGSIZE || n >= g.size - 1 { return PanicTooBig; }
      if !busy { return PanicOutside; }
      LoggedOpen(g, Abs(), Write(s, b));
      Append(s, b);
      r := Done;
    }

    method Append(s: nat, b: Stored)
      requires Valid() && s < g.start && n < g.Limit()
      modifies `disk, `pinned, `images, `n, `sector
      ensures |sector| == LOGSIZE && n <= LOGSIZE && images == old(images) + [disk]
      ensures Abs() == Logged(g, old(Abs()), Write(s, b))
    {
      ghost var secs := sector[..n];
      var i := Absorb(s);
      sector := sector[i := s];
      assert g.start + i + 1 !in pinned;
      Bwrite(g.start + i + 1, b);
      assert pinned == old(pinned);
      if i == n { n := n + 1; }
      pinned := pinned[s := b];
      assert sector[..n] == if i < |secs| then secs else secs + [s];
    }

    /** Every image commit_trans produces is the image of a crash point after the
        commit header, it installs what readers saw, and nothing stays pinned. */
    method CommitTrans()
      requires Valid() && busy
      modifies this
      ensures Valid() && !busy && n == 0 && pinned == map[]
      ensures old(n) == 0 ==> disk == old(disk) && images == old(images)
      ensures old(n) > 0 ==> images == old(images) + CommitImages(g, old(Abs()))
      ensures forall s :: 0 <= s < g.start ==> Bread(s) == old(Bread(s))
    {
      if n > 0 {
        CommittedDisk(g, Abs());
        WriteAndInstall();
      }
      assert pinned == map[];
      busy := false;
    }

    method WriteAndInstall()
      requires 0 < n <= |sector| == LOGSIZE && Open(g, Abs())
      modifies `disk, `pinned, `images, `n
      ensures n == 0 && pinned == map[] && disk == CommittedHead(g, old(Abs()), true)
      ensures images == old(images) + CommitImages(g, old(Abs()))
    {
      ghost var t := Abs();
      CommittedHeader(g, t);
      WriteHeader();
      InstallAndClear();
      CommitImagesSplit(g, t);
    }
  }
}
