// The redo log of kernel/log.c as the series of block writes it issues, and what a
// crash between any two of them, in commit or in recovery itself, leaves behind.
module CrashRecovery {
  import opened Blocks
  import opened MirroredDisk

  // Where the superblock puts the log: a header block and size - 1 data blocks.
  datatype Layout = Layout(start: nat, size: nat) {
    predicate Valid() {
      1 <= size && start + size <= LOGICAL_DISK_SIZE
    }

    predicate IsHome(b: nat) {
      b < LOGICAL_DISK_SIZE && !(start <= b < start + size)
    }
  }

  // One transaction: the home blocks in lh.block[0..lh.n) and their cached contents.
  datatype Tx = Tx(blocks: seq<nat>, data: seq<Block>)

  predicate ValidBlocks(l: Layout, bs: seq<nat>) {
    && |bs| <= LOGSIZE
    && |bs| <= l.size - 1
    && forall i :: 0 <= i < |bs| ==> l.IsHome(bs[i])
  }

  ghost predicate Distinct(bs: seq<nat>) {
    forall i, j :: 0 <= i < j < |bs| ==> bs[i] != bs[j]
  }

  // log_write lists a block once.
  ghost predicate ValidTx(l: Layout, tx: Tx) {
    l.Valid() && 0 < |tx.blocks| == |tx.data| && ValidBlocks(l, tx.blocks) && Distinct(tx.blocks)
  }

  // The header block: word 0 is n, word 1 + i is block[i].
  predicate HeaderOk(b: Block) {
    Word(b, 0) <= LOGSIZE
  }

  function Header(b: Block): (bs: seq<nat>)
    requires HeaderOk(b)
    ensures |bs| <= LOGSIZE
  {
    seq(Word(b, 0), i requires 0 <= i < Word(b, 0) => Word(b, 1 + i))
  }

  function SetEntries(b: Block, bs: seq<uint>): (r: Block)
    requires |bs| <= LOGSIZE
  {
    if bs == [] then b else SetWord(SetEntries(b, bs[..|bs| - 1]), |bs|, bs[|bs| - 1])
  }

  // What write_head stores: n and the first n entries, the rest of the block as it was.
  function SetHeader(b: Block, bs: seq<uint>): (r: Block)
    requires |bs| <= LOGSIZE
  {
    SetEntries(SetWord(b, 0, |bs|), bs)
  }

  lemma {:induction false} SetEntriesWord(b: Block, bs: seq<uint>, j: nat)
    requires |bs| <= LOGSIZE && j <= LOGSIZE
    ensures Word(SetEntries(b, bs), j) == if 1 <= j <= |bs| then bs[j - 1] else Word(b, j)
    decreases |bs|
  {
    if bs != [] {
      var n := |bs| - 1;
      SetEntriesWord(b, bs[..n], j);
      WordOfSetWord(SetEntries(b, bs[..n]), |bs|, bs[n], j);
    }
  }

  // read_head reads back what write_head wrote.
  lemma HeaderRoundTrip(b: Block, bs: seq<uint>)
    requires |bs| <= LOGSIZE
    ensures HeaderOk(SetHeader(b, bs)) && Header(SetHeader(b, bs)) == bs
  {
    hide SetEntries, Word;
    var b0 := SetWord(b, 0, |bs|);
    WordOfSetWord(b, 0, |bs|, 0);
    SetEntriesWord(b0, bs, 0);
    forall i | 0 <= i < |bs| ensures Word(SetHeader(b, bs), 1 + i) == bs[i] {
      SetEntriesWord(b0, bs, 1 + i);
    }
  }

  // ---- the block writes of log.c, per logical disk ----

  function LogWrites(l: Layout, data: seq<Block>): (ws: seq<Write>)
    ensures |ws| == |data|
  {
    seq(|data|, i requires 0 <= i < |data| => Write(l.start + i + 1, data[i]))
  }

  function InstallWrites(bs: seq<nat>, data: seq<Block>): (ws: seq<Write>)
    requires |bs| == |data|
    ensures |ws| == |bs|
  {
    seq(|bs|, i requires 0 <= i < |bs| => Write(bs[i], data[i]))
  }

  // commit(): write_log, write_head, install_trans, and write_head with n = 0.
  function CommitWrites(l: Layout, header: Block, tx: Tx): (ws: seq<Write>)
    requires |tx.blocks| == |tx.data| <= LOGSIZE && forall i :: 0 <= i < |tx.blocks| ==> tx.blocks[i] < UINT_LIMIT
    ensures |ws| == 2 * |tx.blocks| + 2
  {
    var h := SetHeader(header, tx.blocks);
    LogWrites(l, tx.data) + [Write(l.start, h)] + InstallWrites(tx.blocks, tx.data)
    + [Write(l.start, SetHeader(h, []))]
  }

  predicate LogReadable(l: Layout, img: seq<Block>) {
    && l.Valid() && |img| == LOGICAL_DISK_SIZE
    && HeaderOk(img[l.start]) && ValidBlocks(l, Header(img[l.start]))
  }

  function LogData(l: Layout, img: seq<Block>, n: nat): (data: seq<Block>)
    requires l.Valid() && |img| == LOGICAL_DISK_SIZE && n <= l.size - 1
    ensures |data| == n
  {
    seq(n, i requires 0 <= i < n => img[l.start + 1 + i])
  }

  // recover_from_log(): install what the header names, then clear the header.
  function RecoveryWrites(l: Layout, img: seq<Block>): (ws: seq<Write>)
    requires LogReadable(l, img)
  {
    var bs := Header(img[l.start]);
    InstallWrites(bs, LogData(l, img, |bs|)) + [Write(l.start, SetHeader(img[l.start], []))]
  }

  // ---- one replica ----

  ghost predicate SameHome(l: Layout, a: seq<Block>, b: seq<Block>)
    requires |a| == |b| == LOGICAL_DISK_SIZE
  {
    forall x: nat :: l.IsHome(x) ==> a[x] == b[x]
  }

  // The image with the first m blocks of the transaction in place.
  function Part(before: seq<Block>, tx: Tx, m: nat): (r: seq<Block>)
    requires |tx.blocks| == |tx.data| && m <= |tx.blocks|
    ensures |r| == |before|
  {
    Apply(before, InstallWrites(tx.blocks, tx.data)[..m])
  }

  function After(before: seq<Block>, tx: Tx): (r: seq<Block>)
    requires |tx.blocks| == |tx.data|
    ensures |r| == |before|
  {
    Part(before, tx, |tx.blocks|)
  }

  lemma {:induction false} PartAt(before: seq<Block>, tx: Tx, m: nat, x: nat)
    requires |tx.blocks| == |tx.data| && m <= |tx.blocks| && x < |before|
    ensures x !in tx.blocks ==> Part(before, tx, m)[x] == before[x]
    ensures forall i :: Distinct(tx.blocks) && 0 <= i < |tx.blocks| && tx.blocks[i] == x ==>
      Part(before, tx, m)[x] == if i < m then tx.data[i] else before[x]
    decreases m
  {
    var ws := InstallWrites(tx.blocks, tx.data);
    if m > 0 {
      PartAt(before, tx, m - 1, x);
      assert ws[..m][..m - 1] == ws[..m - 1] && ws[..m][m - 1] == ws[m - 1];
    }
  }

  // Where a replica stands with a transaction: how many blocks have been installed, and
  // whether the header lists the transaction.
  datatype Stage = Stage(done: nat, open: bool)

  ghost predicate AtStage(l: Layout, before: seq<Block>, tx: Tx, s: Stage, img: seq<Block>) {
    && ValidTx(l, tx) && |img| == |before| == LOGICAL_DISK_SIZE && s.done <= |tx.blocks|
    && SameHome(l, Part(before, tx, s.done), img)
    && HeaderOk(img[l.start])
    && (if s.open then Header(img[l.start]) == tx.blocks && LogData(l, img, |tx.blocks|) == tx.data
        else Header(img[l.start]) == [])
  }

  ghost predicate LogEmpty(l: Layout, img: seq<Block>) {
    l.Valid() && |img| == LOGICAL_DISK_SIZE && HeaderOk(img[l.start]) && Header(img[l.start]) == []
  }

  function Max(a: nat, b: nat): nat { if a < b then b else a }
  function Min(a: nat, b: nat): nat { if a < b then a else b }

  // The first k writes.
  function Cut(ws: seq<Write>, k: nat): (r: seq<Write>)
    ensures r == if k < |ws| then ws[..k] else ws
  {
    ws[..Min(k, |ws|)]
  }

  // Installing again what is installed, and then some more.
  lemma InstallReaches(l: Layout, before: seq<Block>, tx: Tx, s: Stage, img: seq<Block>, j: nat)
    requires AtStage(l, before, tx, s, img) && j <= |tx.blocks|
    ensures AtStage(l, before, tx, Stage(Max(s.done, j), s.open), Part(img, tx, j))
  {
    hide Part, Header;
    var img' := Part(img, tx, j);
    forall x: nat | x < LOGICAL_DISK_SIZE
      ensures if l.IsHome(x) then img'[x] == Part(before, tx, Max(s.done, j))[x] else img'[x] == img[x]
    {
      PartAt(img, tx, j, x);
      PartAt(before, tx, s.done, x);
      PartAt(before, tx, Max(s.done, j), x);
      if x in tx.blocks {
        var i :| 0 <= i < |tx.blocks| && tx.blocks[i] == x;
      }
    }
    assert LogData(l, img', |tx.blocks|) == LogData(l, img, |tx.blocks|);
  }

  // Writing a header, empty or not.
  lemma HeaderReaches(l: Layout, before: seq<Block>, tx: Tx, s: Stage, img: seq<Block>, h: Block)
    requires AtStage(l, before, tx, s, img)
    ensures AtStage(l, before, tx, Stage(s.done, false), ApplyOne(img, Write(l.start, SetHeader(h, []))))
    ensures LogData(l, img, |tx.blocks|) == tx.data ==>
      AtStage(l, before, tx, Stage(s.done, true), ApplyOne(img, Write(l.start, SetHeader(h, tx.blocks))))
  {
    hide Part, Header, SetHeader;
    HeaderRoundTrip(h, []);
    HeaderRoundTrip(h, tx.blocks);
    var img' := ApplyOne(img, Write(l.start, SetHeader(h, tx.blocks)));
    assert LogData(l, img', |tx.blocks|) == LogData(l, img, |tx.blocks|);
  }

  lemma {:induction false} LogWritesAt(l: Layout, img: seq<Block>, data: seq<Block>, k: nat, x: nat)
    requires l.Valid() && |img| == LOGICAL_DISK_SIZE && |data| <= l.size - 1
    requires k <= |data| && x < LOGICAL_DISK_SIZE
    ensures Apply(img, LogWrites(l, data)[..k])[x]
         == if l.start < x <= l.start + k then data[x - l.start - 1] else img[x]
    decreases k
  {
    var ws := LogWrites(l, data)[..k];
    if k > 0 {
      LogWritesAt(l, img, data, k - 1, x);
      assert ws[..k - 1] == LogWrites(l, data)[..k - 1];
    }
  }

  // A replica after the first j writes of a commit.
  function AfterCommit(n: nat, j: nat): Stage {
    if j <= n then Stage(0, false) else if j < 2 * n + 2 then Stage(j - n - 1, true) else Stage(n, false)
  }

  lemma CommitReaches(l: Layout, before: seq<Block>, tx: Tx, h: Block, j: nat)
    requires ValidTx(l, tx) && LogEmpty(l, before)
    ensures AtStage(l, before, tx, AfterCommit(|tx.blocks|, j), Apply(before, Cut(CommitWrites(l, h, tx), j)))
  {
    hide Apply, SetHeader, AtStage, LogEmpty, Distinct;
    var n := |tx.blocks|;
    var all, logs, installs := CommitWrites(l, h, tx), LogWrites(l, tx.data), InstallWrites(tx.blocks, tx.data);
    CommitLogging(l, before, tx, Min(j, n));
    if j <= n {
      assert Cut(all, j) == logs[..j];
    } else {
      assert logs[..n] == logs;
      var head, img := all[n], Apply(before, logs);
      HeaderReaches(l, before, tx, Stage(0, false), img, h);
      ApplyAppend(before, logs, head);
      var i := Min(j - n - 1, n);
      InstallReaches(l, before, tx, Stage(0, true), ApplyOne(img, head), i);
      ApplyConcat(before, logs + [head], installs[..i]);
      if j < 2 * n + 2 {
        assert Cut(all, j) == (logs + [head]) + installs[..i];
      } else {
        assert installs[..n] == installs;
        assert Cut(all, j) == ((logs + [head]) + installs) + [all[2 * n + 1]];
        ApplyAppend(before, (logs + [head]) + installs, all[2 * n + 1]);
        HeaderReaches(l, before, tx, Stage(n, true), Part(ApplyOne(img, head), tx, n), SetHeader(h, tx.blocks));
      }
    }
  }

  lemma CommitLogging(l: Layout, before: seq<Block>, tx: Tx, k: nat)
    requires ValidTx(l, tx) && LogEmpty(l, before) && k <= |tx.data|
    ensures var img := Apply(before, LogWrites(l, tx.data)[..k]);
      && AtStage(l, before, tx, Stage(0, false), img)
      && (k == |tx.data| ==> LogData(l, img, |tx.blocks|) == tx.data)
  {
    hide Header;
    var img := Apply(before, LogWrites(l, tx.data)[..k]);
    forall x: nat | x < LOGICAL_DISK_SIZE
      ensures img[x] == if l.start < x <= l.start + k then tx.data[x - l.start - 1] else before[x]
    {
      LogWritesAt(l, before, tx.data, k, x);
    }
  }

  // A replica at s after the first j writes of a recovery that reads a replica at src.
  function AfterRecovery(n: nat, src: Stage, s: Stage, j: nat): Stage {
    if src.open then Stage(Max(s.done, Min(j, n)), s.open && j <= n) else Stage(s.done, s.open && j == 0)
  }

  lemma RecoveryReaches(l: Layout, before: seq<Block>, tx: Tx, s: Stage, img: seq<Block>, j: nat,
                        before': seq<Block>, src: Stage, img': seq<Block>)
    requires AtStage(l, before, tx, s, img) && AtStage(l, before', tx, src, img')
    ensures LogReadable(l, img')
    ensures AtStage(l, before, tx, AfterRecovery(|tx.blocks|, src, s, j), Apply(img, Cut(RecoveryWrites(l, img'), j)))
  {
    hide Apply, SetHeader, AtStage, RecoveryWrites, InstallWrites, Distinct;
    RecoveryShape(l, before', tx, src, img');
    var n, all := |tx.blocks|, RecoveryWrites(l, img');
    StageBound(l, before, tx, s, img);
    if src.open {
      var installs := InstallWrites(tx.blocks, tx.data);
      InstallReaches(l, before, tx, s, img, Min(j, n));
      if j <= n {
        assert Cut(all, j) == installs[..j];
      } else {
        assert installs[..n] == installs;
        assert Cut(all, j) == installs + [all[n]];
        ApplyAppend(img, installs, all[n]);
        HeaderReaches(l, before, tx, Stage(n, s.open), Part(img, tx, n), img'[l.start]);
      }
    } else if j == 0 {
      assert Cut(all, j) == [];
      ApplyIdentity(img, []);
    } else {
      assert Cut(all, j) == [all[0]];
      ApplyShort(img, all[0], all[0]);
      HeaderReaches(l, before, tx, s, img, img'[l.start]);
    }
  }

  lemma RecoveryShape(l: Layout, before: seq<Block>, tx: Tx, s: Stage, img: seq<Block>)
    requires AtStage(l, before, tx, s, img)
    ensures LogReadable(l, img) && |tx.blocks| == |tx.data|
    ensures RecoveryWrites(l, img)
         == (if s.open then InstallWrites(tx.blocks, tx.data) else []) + [Write(l.start, SetHeader(img[l.start], []))]
  {
    hide SetHeader, SameHome, Part;
  }

  lemma InstallTouches(bs: seq<nat>, data: seq<Block>, k: nat, b: nat)
    requires |bs| == |data| && k <= |bs|
    ensures Touches(InstallWrites(bs, data), b) <==> b in bs
    ensures Touches(InstallWrites(bs, data)[..k], b) ==> b in bs
  {
    var ws := InstallWrites(bs, data);
    if b in bs {
      var i :| 0 <= i < |bs| && bs[i] == b;
      assert ws[i].pbn == b;
    }
    forall i | 0 <= i < |ws| && ws[i].pbn == b ensures b in bs { assert bs[i] == b; }
  }

  // ---- both replicas ----

  // The replica that reads are served from.
  function Source(failDisk: int): (r: nat)
    ensures r < 2
  {
    if failDisk == 0 then 1 else 0
  }

  // Cutting off the physical writes cuts off the writes to each replica.
  lemma ReplicaCut(d: seq<Block>, ws: seq<Write>, failDisk: int, k: nat, r: nat)
    requires |d| == FSSIZE && r < 2 && forall i :: 0 <= i < |ws| ==> ws[i].pbn < LOGICAL_DISK_SIZE
    ensures Replica(Apply(d, Cut(Replicate(ws, failDisk), k)), r)
      == Apply(Replica(d, r), Cut(ws, Reached(failDisk, r, k)))
  {
    hide Apply, Replicate, Replica, Reached;
    var all := Replicate(ws, failDisk);
    ReplicateSize(ws, failDisk);
    ReplicaPrefix(d, ws, failDisk, Min(k, |all|), r);
    ReachedCut(ws, failDisk, k, r);
  }

  lemma ReachedCut(ws: seq<Write>, failDisk: int, k: nat, r: nat)
    requires r < 2
    ensures var n := if failDisk == 0 || failDisk == 1 then |ws| else 2 * |ws|;
      Min(Reached(failDisk, r, k), |ws|) == Min(Reached(failDisk, r, Min(k, n)), |ws|)
      && Reached(failDisk, r, Min(k, n)) <= |ws|
  {
  }

  // The device when commit was cut off after k physical writes.
  function CrashedCommit(l: Layout, d: seq<Block>, tx: Tx, failDisk: int, k: nat): (r: seq<Block>)
    requires |d| == FSSIZE && l.Valid() && |tx.blocks| == |tx.data| && ValidBlocks(l, tx.blocks)
    ensures |r| == FSSIZE
  {
    Apply(d, Cut(Replicate(CommitWrites(l, Replica(d, Source(failDisk))[l.start], tx), failDisk), k))
  }

  // The writes recovery issues; none where the log cannot be read.
  function PhysicalRecovery(l: Layout, d: seq<Block>, failDisk: int): (ws: seq<Write>)
    requires |d| == FSSIZE
  {
    if LogReadable(l, Replica(d, Source(failDisk))) then
      Replicate(RecoveryWrites(l, Replica(d, Source(failDisk))), failDisk)
    else []
  }

  // A boot: which disk is down, and after how many physical writes recovery is cut off.
  datatype Boot = Boot(failDisk: int, cut: nat)

  function Recovery(l: Layout, d: seq<Block>, b: Boot): (r: seq<Block>)
    requires |d| == FSSIZE
    ensures |r| == FSSIZE
  {
    Apply(d, Cut(PhysicalRecovery(l, d, b.failDisk), b.cut))
  }

  function Boots(l: Layout, d: seq<Block>, bs: seq<Boot>): (r: seq<Block>)
    requires |d| == FSSIZE
    ensures |r| == FSSIZE
  {
    if bs == [] then d else Recovery(l, Boots(l, d, bs[..|bs| - 1]), bs[|bs| - 1])
  }

  // Recovery that completes: it makes at most WHOLE writes.
  const WHOLE: nat := 2 * LOGSIZE + 2

  function Recovered(l: Layout, d: seq<Block>, failDisk: int): (r: seq<Block>)
    requires |d| == FSSIZE
    ensures |r| == FSSIZE
  {
    Recovery(l, d, Boot(failDisk, WHOLE))
  }

  lemma RecoveryLength(l: Layout, d: seq<Block>, failDisk: int)
    requires |d| == FSSIZE
    ensures |PhysicalRecovery(l, d, failDisk)| <= WHOLE
  {
    hide Replicate, SetHeader;
    var img := Replica(d, Source(failDisk));
    if LogReadable(l, img) {
      ReplicateSize(RecoveryWrites(l, img), failDisk);
    }
  }

  lemma CommitReplica(l: Layout, d: seq<Block>, tx: Tx, failDisk: int, k: nat, r: nat)
    requires |d| == FSSIZE && ValidTx(l, tx) && r < 2 && LogEmpty(l, Replica(d, r))
    ensures AtStage(l, Replica(d, r), tx, AfterCommit(|tx.blocks|, Reached(failDisk, r, k)),
                    Replica(CrashedCommit(l, d, tx, failDisk, k), r))
  {
    hide Apply, Replicate, SetHeader, AtStage, Reached;
    var h := Replica(d, Source(failDisk))[l.start];
    ReplicaCut(d, CommitWrites(l, h, tx), failDisk, k, r);
    CommitReaches(l, Replica(d, r), tx, h, Reached(failDisk, r, k));
  }

  // How many writes a boot makes to replica r.
  function Writes(b: Boot, r: nat): nat {
    Reached(b.failDisk, r, b.cut)
  }

  // One boot, for a replica at s, when the replica it reads is at src.
  lemma BootReplica(l: Layout, d: seq<Block>, tx: Tx, s: Stage, src: Stage, e: seq<Block>, b: Boot, r: nat)
    requires |d| == |e| == FSSIZE && r < 2 && AtStage(l, Replica(d, r), tx, s, Replica(e, r))
    requires var q := Source(b.failDisk); AtStage(l, Replica(d, q), tx, src, Replica(e, q))
    ensures AtStage(l, Replica(d, r), tx, AfterRecovery(|tx.blocks|, src, s, Writes(b, r)),
                    Replica(Recovery(l, e, b), r))
  {
    hide Apply, Replicate, SetHeader, AtStage, Reached, AfterRecovery;
    var q := Source(b.failDisk);
    RecoveryReaches(l, Replica(d, r), tx, s, Replica(e, r), Writes(b, r), Replica(d, q), src, Replica(e, q));
    ReplicaCut(e, RecoveryWrites(l, Replica(e, q)), b.failDisk, b.cut, r);
  }

  // A boot that does not write replica r.
  lemma BootSpares(l: Layout, e: seq<Block>, b: Boot, r: nat)
    requires |e| == FSSIZE && r < 2 && b.failDisk == r
    ensures Replica(Recovery(l, e, b), r) == Replica(e, r)
  {
    hide Apply, Replicate, SetHeader;
    var img := Replica(e, Source(b.failDisk));
    if LogReadable(l, img) {
      ReplicaCut(e, RecoveryWrites(l, img), b.failDisk, b.cut, r);
    } else {
      assert Cut([], b.cut) == [];
    }
    ApplyIdentity(Replica(e, r), []);
    ApplyIdentity(e, []);
  }

  // ---- crash atomicity ----

  // Did the header of the transaction reach replica r?
  predicate CommitPoint(tx: Tx, failDisk: int, r: nat, k: nat) {
    Reached(failDisk, r, k) > |tx.blocks|
  }

  // A boot reads replica r or does not write it.
  predicate Keeps(b: Boot, r: nat) {
    Source(b.failDisk) == r || b.failDisk == r
  }

  // A replica that recovers from its own log: before the commit point untouched, and from
  // it on open until everything is installed.
  predicate Settles(n: nat, committed: bool, s: Stage) {
    if committed then s.done == n || s.open else s == Stage(0, false)
  }

  lemma {:induction false} BootsSettle(l: Layout, d: seq<Block>, tx: Tx, c: bool, s: Stage, e: seq<Block>,
                                       bs: seq<Boot>, r: nat)
    returns (s': Stage)
    requires |d| == |e| == FSSIZE && r < 2 && AtStage(l, Replica(d, r), tx, s, Replica(e, r))
      && Settles(|tx.blocks|, c, s)
    requires forall i :: 0 <= i < |bs| ==> Keeps(bs[i], r)
    ensures AtStage(l, Replica(d, r), tx, s', Replica(Boots(l, e, bs), r)) && Settles(|tx.blocks|, c, s')
    decreases |bs|
  {
    hide AtStage, Recovery;
    s' := s;
    if bs != [] {
      var n, b := |bs| - 1, bs[|bs| - 1];
      s' := BootsSettle(l, d, tx, c, s, e, bs[..n], r);
      var f := Boots(l, e, bs[..n]);
      assert s'.done <= |tx.blocks| by { StageBound(l, Replica(d, r), tx, s', Replica(f, r)); }
      if Source(b.failDisk) == r {
        BootReplica(l, d, tx, s', s', f, b, r);
        s' := AfterRecovery(|tx.blocks|, s', s', Writes(b, r));
      } else {
        BootSpares(l, f, b, r);
      }
    }
  }

  lemma StageBound(l: Layout, before: seq<Block>, tx: Tx, s: Stage, img: seq<Block>)
    requires AtStage(l, before, tx, s, img)
    ensures s.done <= |tx.blocks| == |tx.data| && |before| == |img| == LOGICAL_DISK_SIZE
    ensures SameHome(l, Part(before, tx, s.done), img) && (!s.open ==> LogEmpty(l, img))
  {
  }

  // Crash atomicity.  Commit is cut off after any number k of physical writes, whichever
  // disk is down, then recovery is cut off any number of times, each time reading replica
  // Source(failDisk) or not writing it, then recovery completes.  The home blocks of that
  // replica are then those of the whole transaction if its header had reached it, and
  // those from before otherwise.  For replica 0 this covers all boots.
  lemma CrashAtomicity(l: Layout, d: seq<Block>, tx: Tx, downAtCommit: int, k: nat, bs: seq<Boot>, failDisk: int)
    requires |d| == FSSIZE && ValidTx(l, tx) && LogEmpty(l, Replica(d, Source(failDisk)))
    requires forall i :: 0 <= i < |bs| ==> Keeps(bs[i], Source(failDisk))
    ensures var r := Source(failDisk);
      var img := Replica(Recovered(l, Boots(l, CrashedCommit(l, d, tx, downAtCommit, k), bs), failDisk), r);
      && LogEmpty(l, img)
      && SameHome(l, if CommitPoint(tx, downAtCommit, r, k) then After(Replica(d, r), tx) else Replica(d, r), img)
  {
    hide AtStage, Recovery, CrashedCommit, Boots, Part, SameHome, LogEmpty, Replica, Writes, Reached, Distinct;
    var r, n := Source(failDisk), |tx.blocks|;
    CommitReplica(l, d, tx, downAtCommit, k, r);
    var e0, c := CrashedCommit(l, d, tx, downAtCommit, k), CommitPoint(tx, downAtCommit, r, k);
    var s := BootsSettle(l, d, tx, c, AfterCommit(n, Reached(downAtCommit, r, k)), e0, bs, r);
    var e, b := Boots(l, e0, bs), Boot(failDisk, WHOLE);
    BootReplica(l, d, tx, s, s, e, b, r);
    StageBound(l, Replica(d, r), tx, s, Replica(e, r));
    StageBound(l, Replica(d, r), tx, AfterRecovery(n, s, s, Writes(b, r)), Replica(Recovery(l, e, b), r));
    PartNone(Replica(d, r), tx);
    WholeReaches(tx, failDisk, r);
  }

  lemma WholeReaches(tx: Tx, failDisk: int, r: nat)
    requires |tx.blocks| <= LOGSIZE && r < 2 && failDisk != r
    ensures Writes(Boot(failDisk, WHOLE), r) > |tx.blocks|
  {
  }

  lemma PartNone(before: seq<Block>, tx: Tx)
    requires |tx.blocks| == |tx.data|
    ensures Part(before, tx, 0) == before
  {
  }

  // ---- histories ----

  // A transaction, where its commit was cut off, and the recoveries cut off after it; then
  // recovery completes.  A commit that was not cut off has cut at least its length.
  datatype Era = Era(tx: Tx, cut: nat, boots: seq<nat>)

  function ToBoots(failDisk: int, cuts: seq<nat>): (bs: seq<Boot>)
    ensures |bs| == |cuts| && forall i :: 0 <= i < |bs| ==> bs[i].failDisk == failDisk
  {
    seq(|cuts|, i requires 0 <= i < |cuts| => Boot(failDisk, cuts[i]))
  }

  ghost predicate ValidEras(l: Layout, eras: seq<Era>) {
    forall i :: 0 <= i < |eras| ==> ValidTx(l, eras[i].tx)
  }

  ghost function Lived(l: Layout, d: seq<Block>, failDisk: int, eras: seq<Era>): (r: seq<Block>)
    requires |d| == FSSIZE && ValidEras(l, eras)
    ensures |r| == FSSIZE
  {
    if eras == [] then d else
      var era := eras[|eras| - 1];
      var e := CrashedCommit(l, Lived(l, d, failDisk, eras[..|eras| - 1]), era.tx, failDisk, era.cut);
      Recovered(l, Boots(l, e, ToBoots(failDisk, era.boots)), failDisk)
  }

  // The transactions whose header reached replica r, one after the other.
  ghost function Expected(l: Layout, img: seq<Block>, failDisk: int, r: nat, eras: seq<Era>): (e: seq<Block>)
    requires ValidEras(l, eras)
    ensures |e| == |img|
  {
    if eras == [] then img else
      var era, e := eras[|eras| - 1], Expected(l, img, failDisk, r, eras[..|eras| - 1]);
      if CommitPoint(era.tx, failDisk, r, era.cut) then After(e, era.tx) else e
  }

  // Over any number of transactions and crashes with the same disk down throughout, the
  // replica being read holds the committed transactions, each of them whole.
  lemma {:induction false} HistoryAtomicity(l: Layout, d: seq<Block>, failDisk: int, eras: seq<Era>)
    requires |d| == FSSIZE && ValidEras(l, eras) && LogEmpty(l, Replica(d, Source(failDisk)))
    ensures var r := Source(failDisk);
      var img := Replica(Lived(l, d, failDisk, eras), r);
      LogEmpty(l, img) && SameHome(l, Expected(l, Replica(d, r), failDisk, r, eras), img)
    decreases |eras|
  {
    hide Apply, Boots, CrashedCommit, Recovered, Replica, LogEmpty, After, CommitPoint;
    var r := Source(failDisk);
    if eras != [] {
      var n := |eras| - 1;
      var era, e := eras[n], Lived(l, d, failDisk, eras[..n]);
      HistoryAtomicity(l, d, failDisk, eras[..n]);
      CrashAtomicity(l, e, era.tx, failDisk, era.cut, ToBoots(failDisk, era.boots), failDisk);
      SameHomeAfter(l, Expected(l, Replica(d, r), failDisk, r, eras[..n]), Replica(e, r), era.tx);
    }
  }

  lemma SameHomeAfter(l: Layout, a: seq<Block>, b: seq<Block>, tx: Tx)
    requires |a| == |b| == LOGICAL_DISK_SIZE && SameHome(l, a, b) && ValidTx(l, tx)
    ensures SameHome(l, After(a, tx), After(b, tx))
  {
    hide Part;
    forall x: nat | l.IsHome(x) ensures After(a, tx)[x] == After(b, tx)[x] {
      PartAt(a, tx, |tx.blocks|, x);
      PartAt(b, tx, |tx.blocks|, x);
    }
  }

  // The contents of the listed blocks.
  function Contents(img: seq<Block>, bs: seq<nat>): (data: seq<Block>)
    requires forall i :: 0 <= i < |bs| ==> bs[i] < |img|
    ensures |data| == |bs|
  {
    seq(|bs|, i requires 0 <= i < |bs| => img[bs[i]])
  }

  // The transactions of the history log what the replica being read holds already, as commits
  // do while disk 0 is down.
  ghost predicate LogsOwnContents(l: Layout, d: seq<Block>, failDisk: int, eras: seq<Era>)
    requires |d| == FSSIZE && ValidEras(l, eras)
  {
    forall k :: 0 <= k < |eras| ==> OwnContents(Lived(l, d, failDisk, eras[..k]), Source(failDisk), eras[k].tx)
  }

  ghost predicate OwnContents(d: seq<Block>, r: nat, tx: Tx) {
    && |d| == FSSIZE && r < 2 && (forall i :: 0 <= i < |tx.blocks| ==> tx.blocks[i] < LOGICAL_DISK_SIZE)
    && tx.data == Contents(Replica(d, r), tx.blocks)
  }

  // Then no home block changes in the whole history, whatever was committed and cut off.
  lemma {:induction false} OwnContentsChangeNothing(l: Layout, d: seq<Block>, failDisk: int, eras: seq<Era>)
    requires |d| == FSSIZE && ValidEras(l, eras) && LogEmpty(l, Replica(d, Source(failDisk)))
    requires LogsOwnContents(l, d, failDisk, eras)
    ensures SameHome(l, Replica(d, Source(failDisk)), Replica(Lived(l, d, failDisk, eras), Source(failDisk)))
    decreases |eras|
  {
    hide Apply, Boots, CrashedCommit, Recovered, Replica, LogEmpty, Part, CommitPoint;
    var r := Source(failDisk);
    if eras != [] {
      var n := |eras| - 1;
      var front, era := eras[..n], eras[n];
      var e := Lived(l, d, failDisk, front);
      forall k | 0 <= k < n ensures OwnContents(Lived(l, d, failDisk, front[..k]), r, front[k].tx) {
        assert front[..k] == eras[..k];
        assert OwnContents(Lived(l, d, failDisk, eras[..k]), r, eras[k].tx);
      }
      OwnContentsChangeNothing(l, d, failDisk, front);
      HistoryAtomicity(l, d, failDisk, front);
      CrashAtomicity(l, e, era.tx, failDisk, era.cut, ToBoots(failDisk, era.boots), failDisk);
      assert OwnContents(e, r, era.tx);
      AfterOwnContents(Replica(e, r), era.tx);
    }
  }

  lemma AfterOwnContents(img: seq<Block>, tx: Tx)
    requires (forall i :: 0 <= i < |tx.blocks| ==> tx.blocks[i] < |img|) && tx.data == Contents(img, tx.blocks)
    ensures After(img, tx) == img
  {
    hide Apply;
    ApplyIdentity(img, InstallWrites(tx.blocks, tx.data)[..|tx.blocks|]);
  }
}
