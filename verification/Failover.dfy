// What recovery leaves behind when the disk it reads changes from boot to boot.  Where the
// two replicas stand with a transaction is all that matters for this.
module Failover {
  import opened Blocks
  import opened MirroredDisk
  import opened CrashRecovery

  datatype Stages = Stages(zero: Stage, one: Stage)

  // Where a commit with both disks up leaves them when it is cut off after k writes.
  function CommitStages(n: nat, k: nat): Stages {
    Stages(AfterCommit(n, Reached(-1, 0, k)), AfterCommit(n, Reached(-1, 1, k)))
  }

  function BootStages(n: nat, st: Stages, b: Boot): Stages {
    var src := if b.failDisk == 0 then st.one else st.zero;
    Stages(AfterRecovery(n, src, st.zero, Writes(b, 0)), AfterRecovery(n, src, st.one, Writes(b, 1)))
  }

  function RunStages(n: nat, st: Stages, bs: seq<Boot>): Stages {
    if bs == [] then st else BootStages(n, RunStages(n, st, bs[..|bs| - 1]), bs[|bs| - 1])
  }

  // The last recovery completes.
  function EndStages(n: nat, k: nat, bs: seq<Boot>, failDisk: int): Stages {
    BootStages(n, RunStages(n, CommitStages(n, k), bs), Boot(failDisk, WHOLE))
  }

  ghost predicate LogsEmpty(l: Layout, d: seq<Block>) {
    |d| == FSSIZE && LogEmpty(l, Replica(d, 0)) && LogEmpty(l, Replica(d, 1))
  }

  ghost predicate DeviceAt(l: Layout, d: seq<Block>, tx: Tx, st: Stages, e: seq<Block>) {
    && |d| == |e| == FSSIZE
    && AtStage(l, Replica(d, 0), tx, st.zero, Replica(e, 0)) && AtStage(l, Replica(d, 1), tx, st.one, Replica(e, 1))
  }

  lemma BootReaches(l: Layout, d: seq<Block>, tx: Tx, st: Stages, e: seq<Block>, b: Boot)
    requires DeviceAt(l, d, tx, st, e)
    ensures DeviceAt(l, d, tx, BootStages(|tx.blocks|, st, b), Recovery(l, e, b))
  {
    hide AtStage, Recovery, Writes, AfterRecovery;
    var src := if b.failDisk == 0 then st.one else st.zero;
    BootReplica(l, d, tx, st.zero, src, e, b, 0);
    BootReplica(l, d, tx, st.one, src, e, b, 1);
  }

  lemma {:induction false} BootsReach(l: Layout, d: seq<Block>, tx: Tx, st: Stages, e: seq<Block>, bs: seq<Boot>)
    requires DeviceAt(l, d, tx, st, e)
    ensures DeviceAt(l, d, tx, RunStages(|tx.blocks|, st, bs), Boots(l, e, bs))
    decreases |bs|
  {
    hide DeviceAt, Recovery, BootStages;
    assert |e| == FSSIZE by { DeviceSizes(l, d, tx, st, e); }
    if bs != [] {
      var n := |bs| - 1;
      BootsReach(l, d, tx, st, e, bs[..n]);
      BootReaches(l, d, tx, RunStages(|tx.blocks|, st, bs[..n]), Boots(l, e, bs[..n]), bs[n]);
    }
  }

  lemma DeviceSizes(l: Layout, d: seq<Block>, tx: Tx, st: Stages, e: seq<Block>)
    requires DeviceAt(l, d, tx, st, e)
    ensures |d| == |e| == FSSIZE && |tx.blocks| == |tx.data|
  {
  }

  // The device after a commit cut off after k writes, the boots, and a recovery that completes.
  function End(l: Layout, d: seq<Block>, tx: Tx, k: nat, bs: seq<Boot>, failDisk: int): (r: seq<Block>)
    requires |d| == FSSIZE && l.Valid() && |tx.blocks| == |tx.data| && ValidBlocks(l, tx.blocks)
    ensures |r| == FSSIZE
  {
    Recovered(l, Boots(l, CrashedCommit(l, d, tx, -1, k), bs), failDisk)
  }

  // The small machine is right about every history of the disks.
  lemma EndReached(l: Layout, d: seq<Block>, tx: Tx, k: nat, bs: seq<Boot>, failDisk: int)
    requires LogsEmpty(l, d) && ValidTx(l, tx)
    ensures DeviceAt(l, d, tx, EndStages(|tx.blocks|, k, bs, failDisk), End(l, d, tx, k, bs, failDisk))
  {
    hide AtStage, CrashedCommit, Recovery, Boots, BootStages, RunStages, Reached, Distinct;
    var n := |tx.blocks|;
    CommitReplica(l, d, tx, -1, k, 0);
    CommitReplica(l, d, tx, -1, k, 1);
    var d1, st := CrashedCommit(l, d, tx, -1, k), RunStages(n, CommitStages(n, k), bs);
    BootsReach(l, d, tx, CommitStages(n, k), d1, bs);
    var e := Boots(l, d1, bs);
    BootReaches(l, d, tx, st, e, Boot(failDisk, WHOLE));
  }

  // ---- the mirror ----

  predicate BothUp(bs: seq<Boot>) {
    forall i :: 0 <= i < |bs| ==> bs[i].failDisk != 0 && bs[i].failDisk != 1
  }

  predicate InStep(n: nat, st: Stages) {
    || st == Stages(Stage(0, false), Stage(0, false))
    || (st.zero.open && st.zero.done <= n && st.one.done <= n)
    || st.zero.done == st.one.done == n
  }

  lemma {:induction false} RunsInStep(n: nat, st: Stages, bs: seq<Boot>)
    requires InStep(n, st) && BothUp(bs)
    ensures InStep(n, RunStages(n, st, bs))
    decreases |bs|
  {
    if bs != [] {
      RunsInStep(n, st, bs[..|bs| - 1]);
    }
  }

  // With both disks up, recovery ends with the two replicas agreeing on every home block
  // they agreed on before the transaction, however often it was cut off.
  lemma RecoveryRestoresMirror(l: Layout, d: seq<Block>, tx: Tx, k: nat, bs: seq<Boot>)
    requires LogsEmpty(l, d) && ValidTx(l, tx) && BothUp(bs)
    ensures var e := End(l, d, tx, k, bs, -1);
      && LogsEmpty(l, e)
      && forall x: nat :: l.IsHome(x) && Replica(d, 0)[x] == Replica(d, 1)[x] ==> Replica(e, 0)[x] == Replica(e, 1)[x]
  {
    hide AtStage, End, Part, LogEmpty, Distinct, Replica;
    var n, e := |tx.blocks|, End(l, d, tx, k, bs, -1);
    EndReached(l, d, tx, k, bs, -1);
    RunsInStep(n, CommitStages(n, k), bs);
    var st := EndStages(n, k, bs, -1);
    assert st.zero == st.one && !st.zero.open;
    var m := st.zero.done;
    StageBound(l, Replica(d, 0), tx, st.zero, Replica(e, 0));
    StageBound(l, Replica(d, 1), tx, st.one, Replica(e, 1));
    forall x: nat | l.IsHome(x) && Replica(d, 0)[x] == Replica(d, 1)[x] ensures Replica(e, 0)[x] == Replica(e, 1)[x] {
      PartAt(Replica(d, 0), tx, m, x);
      PartAt(Replica(d, 1), tx, m, x);
    }
  }

  // ---- switching disks ----

  // All of the transaction or none of it.
  ghost predicate Whole(l: Layout, before: seq<Block>, tx: Tx, img: seq<Block>)
    requires |before| == |img| == LOGICAL_DISK_SIZE && |tx.blocks| == |tx.data|
  {
    SameHome(l, before, img) || SameHome(l, After(before, tx), img)
  }

  // The transaction changes its block i.
  predicate Differs(tx: Tx, before: seq<Block>, i: nat) {
    i < |tx.blocks| && i < |tx.data| && tx.blocks[i] < |before| && tx.data[i] != before[tx.blocks[i]]
  }

  predicate Split(tx: Tx, before: seq<Block>, m: int) {
    exists i: nat, j: nat :: i < m <= j < |tx.blocks| && Differs(tx, before, i) && Differs(tx, before, j)
  }

  // The transaction changes two of its blocks, one of them at or after position m.
  predicate TwoDiffer(tx: Tx, before: seq<Block>, m: int) {
    exists i: nat, j: nat :: i < j < |tx.blocks| && m <= j && Differs(tx, before, i) && Differs(tx, before, j)
  }

  lemma WholeUnlessSplit(l: Layout, before: seq<Block>, tx: Tx, s: Stage, img: seq<Block>)
    requires AtStage(l, before, tx, s, img)
    ensures Whole(l, before, tx, img) <==> !Split(tx, before, s.done)
  {
    hide Part, Header, LogData;
    var n := |tx.blocks|;
    forall x: nat | l.IsHome(x)
      ensures x !in tx.blocks ==> img[x] == before[x] == After(before, tx)[x]
      ensures forall i: nat :: i < n && tx.blocks[i] == x ==>
        img[x] == (if i < s.done then tx.data[i] else before[x]) && After(before, tx)[x] == tx.data[i]
    {
      PartAt(before, tx, s.done, x);
      PartAt(before, tx, n, x);
    }
    if SameHome(l, before, img) {
      forall i: nat | i < s.done ensures !Differs(tx, before, i) { assert l.IsHome(tx.blocks[i]); }
    }
    if SameHome(l, After(before, tx), img) {
      forall j: nat | s.done <= j < n ensures !Differs(tx, before, j) { assert l.IsHome(tx.blocks[j]); }
    }
    if forall i: nat :: i < s.done ==> !Differs(tx, before, i) {
      forall x: nat | l.IsHome(x) ensures before[x] == img[x] {
        if x in tx.blocks {
          var i: nat :| i < n && tx.blocks[i] == x;
          assert i < s.done ==> !Differs(tx, before, i);
        }
      }
    }
    if forall j: nat :: s.done <= j < n ==> !Differs(tx, before, j) {
      forall x: nat | l.IsHome(x) ensures After(before, tx)[x] == img[x] {
        if x in tx.blocks {
          var j: nat :| j < n && tx.blocks[j] == x;
          assert s.done <= j ==> !Differs(tx, before, j);
        }
      }
    }
  }

  // The replica read by the last recovery holds all of the transaction or none of it.
  ghost predicate EndsWhole(l: Layout, d: seq<Block>, tx: Tx, k: nat, bs: seq<Boot>, failDisk: int)
    requires |d| == FSSIZE && l.Valid() && |tx.blocks| == |tx.data| && ValidBlocks(l, tx.blocks)
  {
    var r := Source(failDisk);
    Whole(l, Replica(d, r), tx, Replica(End(l, d, tx, k, bs, failDisk), r))
  }

  function EndStage(n: nat, k: nat, bs: seq<Boot>, failDisk: int): Stage {
    if failDisk == 0 then EndStages(n, k, bs, failDisk).one else EndStages(n, k, bs, failDisk).zero
  }

  lemma EndsWholeIff(l: Layout, d: seq<Block>, tx: Tx, k: nat, bs: seq<Boot>, failDisk: int)
    requires LogsEmpty(l, d) && ValidTx(l, tx)
    ensures EndsWhole(l, d, tx, k, bs, failDisk)
       <==> !Split(tx, Replica(d, Source(failDisk)), EndStage(|tx.blocks|, k, bs, failDisk).done)
  {
    hide AtStage, End, EndStages, Split, Whole;
    EndReached(l, d, tx, k, bs, failDisk);
    var r := Source(failDisk);
    WholeUnlessSplit(l, Replica(d, r), tx, EndStage(|tx.blocks|, k, bs, failDisk),
                     Replica(End(l, d, tx, k, bs, failDisk), r));
  }

  // Blocks installed on replica 1 when commit was cut off.
  function Installed(n: nat, k: nat): int {
    k / 2 - n - 1
  }

  // What holds of both replicas from the commit on.  strict: while disk 1 stays up, and its
  // header had been written.
  predicate Bounded(n: nat, k: nat, strict: bool, st: Stages) {
    && (k <= 2 * n ==> st == Stages(Stage(0, false), Stage(0, false)))
    && (k > 2 * n ==>
          && (st.zero.open || st.zero.done == n) && st.zero.done <= n && st.one.done <= n
          && (Installed(n, k) <= st.one.done || st.one.done == n))
    && (strict && k > 2 * n + 1 ==> (st.one.open || st.one.done == n) && (st.zero.open || st.one.done == n))
  }

  predicate Disk1Up(bs: seq<Boot>, failDisk: int) {
    failDisk != 1 && forall i :: 0 <= i < |bs| ==> bs[i].failDisk != 1
  }

  lemma {:induction false} RunsBounded(n: nat, k: nat, strict: bool, bs: seq<Boot>)
    requires (strict ==> Disk1Up(bs, -1))
    ensures Bounded(n, k, strict, RunStages(n, CommitStages(n, k), bs))
    decreases |bs|
  {
    if bs != [] {
      RunsBounded(n, k, strict, bs[..|bs| - 1]);
    }
  }

  lemma EndBounded(n: nat, k: nat, strict: bool, bs: seq<Boot>, failDisk: int)
    requires n <= LOGSIZE && (strict ==> Disk1Up(bs, failDisk))
    ensures var m := EndStage(n, k, bs, failDisk).done;
      m == 0 || m == n || (failDisk == 0 && k > 2 * n && Installed(n, k) <= m <= n && (strict ==> k == 2 * n + 1))
  {
    RunsBounded(n, k, strict, bs);
  }

  // Histories that leave replica 1 with the first j blocks only: with disk 1 up if the
  // header had reached disk 0 alone, and otherwise with disk 1 down for one boot.
  function TearingBoots(n: nat, k: nat, j: nat): seq<Boot> {
    if k == 2 * n + 1 then [Boot(-1, 2 * j)] else [Boot(0, j), Boot(1, WHOLE), Boot(-1, WHOLE)]
  }

  lemma Tears(n: nat, k: nat, j: nat)
    requires n <= LOGSIZE && 2 * n < k && 0 < j < n && Installed(n, k) <= j
    ensures EndStage(n, k, TearingBoots(n, k, j), 0).done == j
    ensures k == 2 * n + 1 ==> Disk1Up(TearingBoots(n, k, j), 0)
  {
    var st, bs := CommitStages(n, k), TearingBoots(n, k, j);
    if k == 2 * n + 1 {
      RunThree(n, st, bs[0], bs[0], bs[0]);
    } else {
      RunThree(n, st, bs[0], bs[1], bs[2]);
    }
  }

  lemma RunThree(n: nat, st: Stages, a: Boot, b: Boot, c: Boot)
    ensures RunStages(n, st, [a]) == BootStages(n, st, a)
    ensures RunStages(n, st, [a, b, c]) == BootStages(n, BootStages(n, BootStages(n, st, a), b), c)
  {
    hide BootStages;
    assert [a][..0] == [] && [a, b][..1] == [a] && [a, b, c][..2] == [a, b];
  }

  // Disk 1 never fails; disk 0 may fail and return from boot to boot.  Then every history
  // ends with all of the transaction or none of it on the replica being read if and only if
  // commit was not cut off between the two header writes, or at most one block changes.
  lemma SwitchingDisks(l: Layout, d: seq<Block>, tx: Tx, k: nat)
    requires LogsEmpty(l, d) && ValidTx(l, tx)
    ensures (forall bs, f :: Disk1Up(bs, f) ==> EndsWhole(l, d, tx, k, bs, f))
       <==> k != 2 * |tx.blocks| + 1 || !TwoDiffer(tx, Replica(d, 1), 0)
  {
    hide AtStage, EndsWhole, EndStage, Installed, Differs, Distinct, LogEmpty;
    var n := |tx.blocks|;
    forall bs, f | Disk1Up(bs, f) && (k != 2 * n + 1 || !TwoDiffer(tx, Replica(d, 1), 0))
      ensures EndsWhole(l, d, tx, k, bs, f)
    {
      EndsWholeIff(l, d, tx, k, bs, f);
      EndBounded(n, k, true, bs, f);
    }
    if k == 2 * n + 1 && TwoDiffer(tx, Replica(d, 1), 0) {
      var i: nat, j: nat :| i < j < n && 0 <= j && Differs(tx, Replica(d, 1), i) && Differs(tx, Replica(d, 1), j);
      InstalledNone(n);
      Tears(n, k, j);
      EndsWholeIff(l, d, tx, k, TearingBoots(n, k, j), 0);
      assert i < j <= j < n;
    }
  }

  lemma InstalledNone(n: nat)
    ensures Installed(n, 2 * n + 1) == -1
  {
  }

  // Any disk may fail and return.  Then every history ends so if and only if the header had
  // not reached disk 0, or no two blocks change of which one was still to be installed on
  // disk 1.
  lemma SwitchingAnyDisks(l: Layout, d: seq<Block>, tx: Tx, k: nat)
    requires LogsEmpty(l, d) && ValidTx(l, tx)
    ensures (forall bs, f :: EndsWhole(l, d, tx, k, bs, f))
       <==> k <= 2 * |tx.blocks| || !TwoDiffer(tx, Replica(d, 1), Installed(|tx.blocks|, k))
  {
    hide AtStage, EndsWhole, EndStage, Installed, Differs, Distinct, LogEmpty;
    var n := |tx.blocks|;
    forall bs, f | k <= 2 * n || !TwoDiffer(tx, Replica(d, 1), Installed(n, k)) ensures EndsWhole(l, d, tx, k, bs, f) {
      EndsWholeIff(l, d, tx, k, bs, f);
      EndBounded(n, k, false, bs, f);
    }
    if k > 2 * n && TwoDiffer(tx, Replica(d, 1), Installed(n, k)) {
      var i: nat, j: nat :| i < j < n && Installed(n, k) <= j && Differs(tx, Replica(d, 1), i)
          && Differs(tx, Replica(d, 1), j);
      Tears(n, k, j);
      EndsWholeIff(l, d, tx, k, TearingBoots(n, k, j), 0);
      assert i < j <= j < n;
    }
  }

  // ---- many transactions ----

  // A transaction committed with both disks up, where its commit was cut off, and the boots after
  // it that were cut off; then a recovery with both disks up completes.
  datatype Chapter = Chapter(tx: Tx, cut: nat, boots: seq<Boot>)

  ghost predicate ValidChapters(l: Layout, cs: seq<Chapter>) {
    l.Valid() && forall i :: 0 <= i < |cs| ==> ValidTx(l, cs[i].tx)
  }

  // Disk 1 stays up, and no commit is cut off between the two header writes.
  ghost predicate Safe(cs: seq<Chapter>) {
    forall i :: 0 <= i < |cs| ==> cs[i].cut != 2 * |cs[i].tx.blocks| + 1 && Disk1Up(cs[i].boots, -1)
  }

  ghost function Told(l: Layout, d: seq<Block>, cs: seq<Chapter>): (r: seq<Block>)
    requires |d| == FSSIZE && ValidChapters(l, cs)
    ensures |r| == FSSIZE
  {
    if cs == [] then d
    else
      var last := cs[|cs| - 1];
      End(l, Told(l, d, cs[..|cs| - 1]), last.tx, last.cut, last.boots, -1)
  }

  // The transactions whose header had been written, one after the other.
  ghost function Committed(l: Layout, img: seq<Block>, cs: seq<Chapter>): (r: seq<Block>)
    requires ValidChapters(l, cs)
    ensures |r| == |img|
  {
    if cs == [] then img
    else
      var last, before := cs[|cs| - 1], Committed(l, img, cs[..|cs| - 1]);
      if last.cut > 2 * |last.tx.blocks| then After(before, last.tx) else before
  }

  lemma SafeStages(n: nat, k: nat, bs: seq<Boot>)
    requires n <= LOGSIZE && k != 2 * n + 1 && Disk1Up(bs, -1)
    ensures var m := if k > 2 * n then n else 0; EndStages(n, k, bs, -1) == Stages(Stage(m, false), Stage(m, false))
  {
    RunsBounded(n, k, true, bs);
  }

  // One such chapter leaves both replicas before or after the whole transaction.
  lemma SafeChapter(l: Layout, d: seq<Block>, c: Chapter)
    requires LogsEmpty(l, d) && ValidTx(l, c.tx) && c.cut != 2 * |c.tx.blocks| + 1 && Disk1Up(c.boots, -1)
    ensures var e := End(l, d, c.tx, c.cut, c.boots, -1);
      && LogsEmpty(l, e)
      && forall r: nat :: r < 2 ==>
           SameHome(l, if c.cut > 2 * |c.tx.blocks| then After(Replica(d, r), c.tx) else Replica(d, r), Replica(e, r))
  {
    hide AtStage, End, EndStages, Part, LogEmpty, Distinct, Replica, SameHome;
    var n, e := |c.tx.blocks|, End(l, d, c.tx, c.cut, c.boots, -1);
    EndReached(l, d, c.tx, c.cut, c.boots, -1);
    SafeStages(n, c.cut, c.boots);
    var s := Stage(if c.cut > 2 * n then n else 0, false);
    forall r: nat | r < 2
      ensures LogEmpty(l, Replica(e, r))
      ensures SameHome(l, if c.cut > 2 * n then After(Replica(d, r), c.tx) else Replica(d, r), Replica(e, r))
    {
      StageBound(l, Replica(d, r), c.tx, s, Replica(e, r));
      PartNone(Replica(d, r), c.tx);
    }
  }

  // Over any number of safe chapters both replicas hold the committed transactions, each of them
  // whole.
  lemma {:induction false} ManyTransactions(l: Layout, d: seq<Block>, cs: seq<Chapter>)
    requires LogsEmpty(l, d) && ValidChapters(l, cs) && Safe(cs)
    ensures LogsEmpty(l, Told(l, d, cs))
    ensures forall r: nat :: r < 2 ==> SameHome(l, Committed(l, Replica(d, r), cs), Replica(Told(l, d, cs), r))
    decreases |cs|
  {
    hide End, LogEmpty, Replica, After;
    if cs != [] {
      var n := |cs| - 1;
      var front, last := cs[..n], cs[n];
      ManyTransactions(l, d, front);
      var e := Told(l, d, front);
      SafeChapter(l, e, last);
      forall r: nat | r < 2 ensures SameHome(l, Committed(l, Replica(d, r), cs), Replica(Told(l, d, cs), r)) {
        SameHomeAfter(l, Committed(l, Replica(d, r), front), Replica(e, r), last.tx);
      }
    }
  }

  // And after them, the next transaction is safe to fail over in exactly if its commit is not cut
  // off between the two header writes, or changes at most one block of what has been committed.
  lemma FailoverLaw(l: Layout, d: seq<Block>, cs: seq<Chapter>, tx: Tx, k: nat)
    requires LogsEmpty(l, d) && ValidChapters(l, cs) && Safe(cs) && ValidTx(l, tx)
    ensures (forall bs, f :: Disk1Up(bs, f) ==> EndsWhole(l, Told(l, d, cs), tx, k, bs, f))
       <==> k != 2 * |tx.blocks| + 1 || !TwoDiffer(tx, Committed(l, Replica(d, 1), cs), 0)
  {
    hide AtStage, EndsWhole, LogEmpty, Distinct, Told, Committed, Differs, Replica;
    ManyTransactions(l, d, cs);
    SwitchingDisks(l, Told(l, d, cs), tx, k);
    CommittedSize(l, Replica(d, 1), cs);
    SameDiffer(l, Committed(l, Replica(d, 1), cs), Replica(Told(l, d, cs), 1), tx);
  }

  lemma CommittedSize(l: Layout, img: seq<Block>, cs: seq<Chapter>)
    requires ValidChapters(l, cs)
    ensures |Committed(l, img, cs)| == |img|
  {
  }

  lemma SameDiffer(l: Layout, a: seq<Block>, b: seq<Block>, tx: Tx)
    requires |a| == |b| == LOGICAL_DISK_SIZE && SameHome(l, a, b) && ValidTx(l, tx)
    ensures TwoDiffer(tx, a, 0) <==> TwoDiffer(tx, b, 0)
  {
    hide Distinct;
    forall i: nat ensures Differs(tx, a, i) <==> Differs(tx, b, i) {
      assert i < |tx.blocks| ==> l.IsHome(tx.blocks[i]);
    }
  }
}
