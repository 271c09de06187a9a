// The logging layer of kernel/log.c over the buffer cache.  The ghost state says what
// the users of the layer read: `logical` holds the last logged (or directly written)
// contents of every logical block, whatever part of it is on disk yet.  While disk 0 is down
// bread goes to disk 1 every time, and `logical` is what disk 1 holds.
module RedoLog {
  import opened Blocks
  import opened Wrappers
  import opened MirroredDisk
  import opened BufferCache
  import opened CrashRecovery
  import LogReservation

  function Held(b: Buf): int {
    if b.locked then 1 else 0
  }

  lemma WrapStep(x: int, d: int)
    ensures Wrap(Wrap(x) + d) == Wrap(x + d)
  {
    assert (x % UINT_LIMIT + d) % UINT_LIMIT == (x + d) % UINT_LIMIT;
  }

  // Distinct members of a set are no more than the set has.
  lemma {:induction false} Pigeonhole(s: seq<nat>, t: set<nat>)
    requires Distinct(s) && forall i :: 0 <= i < |s| ==> s[i] in t
    ensures |s| <= |t|
    decreases |s|
  {
    if s != [] {
      var n := |s| - 1;
      Pigeonhole(s[..n], t - {s[n]});
    }
  }

  ghost function Elems(s: seq<nat>): set<nat> {
    set x | x in s
  }

  lemma {:induction false} ElemsSize(s: seq<nat>)
    ensures |Elems(s)| <= |s|
    decreases |s|
  {
    if s != [] {
      var n := |s| - 1;
      ElemsSize(s[..n]);
      assert s == s[..n] + [s[n]];
      assert Elems(s) == Elems(s[..n]) + {s[n]};
    }
  }

  lemma DistinctSize(s: seq<nat>)
    requires Distinct(s)
    ensures |Elems(s)| == |s|
  {
    Pigeonhole(s, Elems(s));
    ElemsSize(s);
  }

  lemma InElems(s: seq<nat>)
    ensures forall b :: b in Elems(s) <==> b in s
  {
  }

  // What the layer promises, next to what it has in memory and on disk.
  datatype View = View(
    logical: seq<Block>,   // what bread gives for every block
    pins: seq<int>,        // log pins per block; -1 after one unpin too many
    unsynced: set<nat>,    // logged blocks whose home copy is still old
    dirty: set<nat>,       // buffers that may differ from what bread gives
    degraded: bool)        // disk 0 is down

  ghost predicate WellFormed(v: View) {
    && |v.logical| == |v.pins| == LOGICAL_DISK_SIZE
    && (forall b: nat :: b < LOGICAL_DISK_SIZE ==> -1 <= v.pins[b] <= 1)
    && (forall b :: b in v.unsynced ==> b < LOGICAL_DISK_SIZE && v.pins[b] == 1)
  }

  ghost predicate BufInv(v: View, i: nat, b: Buf)
    requires WellFormed(v)
  {
    || (b.dev == 0 && !b.valid && !b.locked && b.refcnt == 0)
    || (b.dev == ROOTDEV && b.valid && b.blockno < LOGICAL_DISK_SIZE
        && b.refcnt == Wrap(Held(b) + v.pins[b.blockno])
        && (i !in v.dirty && (!v.degraded || b.locked) ==> b.data == v.logical[b.blockno]))
  }

  // The cache agrees with the view, and a pinned block is in the cache.
  ghost predicate CacheInv(v: View, bufs: seq<Buf>)
    ensures CacheInv(v, bufs) ==> WellFormed(v) && |bufs| == NBUF
  {
    && WellFormed(v) && |bufs| == NBUF && UniqueTags(bufs)
    && (forall i :: 0 <= i < NBUF ==> BufInv(v, i, bufs[i]))
    && (forall b: nat :: b < LOGICAL_DISK_SIZE && v.pins[b] != 0 ==> IsCached(bufs, ROOTDEV, b))
    && (forall i :: i in v.dirty ==> i < NBUF && bufs[i].locked)
  }

  // The replica being read agrees with the view, except on blocks still to install while
  // disk 0 is up.
  ghost predicate DiskInv(logical: seq<Block>, unsynced: set<nat>, disk: seq<Block>, failDisk: int) {
    && |logical| == LOGICAL_DISK_SIZE && |disk| == FSSIZE
    && forall b: nat :: b < LOGICAL_DISK_SIZE && (failDisk == 0 || b !in unsynced) ==>
         Replica(disk, Source(failDisk))[b] == logical[b]
  }

  ghost predicate AllUnlocked(bufs: seq<Buf>) {
    forall i :: 0 <= i < |bufs| ==> !bufs[i].locked
  }

  // A buffer whose reference count changed as its lock and pin did still agrees.
  lemma CacheUpdate(v: View, bufs: seq<Buf>, v': View, bufs': seq<Buf>, i: nat)
    requires CacheInv(v, bufs) && WellFormed(v') && v'.degraded == v.degraded && i < NBUF
    requires |bufs'| == NBUF && UniqueTags(bufs') && bufs' == bufs[i := bufs'[i]]
    requires bufs'[i].dev == ROOTDEV && BufInv(v', i, bufs'[i])
    requires bufs'[i].blockno == bufs[i].blockno && bufs[i].dev == ROOTDEV
    requires v'.dirty <= v.dirty + {i} && (i in v'.dirty ==> bufs'[i].locked) && v.dirty <= v'.dirty + {i}
    requires forall b: nat :: b < LOGICAL_DISK_SIZE && b != bufs[i].blockno ==>
      v'.pins[b] == v.pins[b] && v'.logical[b] == v.logical[b]
    ensures CacheInv(v', bufs')
  {
    forall j | 0 <= j < NBUF ensures BufInv(v', j, bufs'[j]) {
      if j != i {
        assert BufInv(v, j, bufs[j]) && bufs'[j] == bufs[j];
        assert bufs[j].dev == ROOTDEV ==> bufs[j].blockno != bufs[i].blockno;
      }
    }
    forall b: nat | b < LOGICAL_DISK_SIZE && v'.pins[b] != 0 ensures IsCached(bufs', ROOTDEV, b) {
      if b == bufs[i].blockno {
        assert Tagged(bufs'[i], ROOTDEV, b);
      } else {
        var j :| 0 <= j < NBUF && Tagged(bufs[j], ROOTDEV, b);
        assert Tagged(bufs'[j], ROOTDEV, b);
      }
    }
  }

  // What log_write does to the view of a locked buffer's block: nothing reads the buffer
  // again while disk 0 is down.
  ghost function Logged(v: View, buf: Buf, i: nat): View
    requires buf.blockno < |v.logical| == |v.pins|
  {
    var b, w := buf.blockno, v.(pins := v.pins[buf.blockno := 1], unsynced := v.unsynced + {buf.blockno});
    if v.degraded then w else w.(logical := v.logical[b := buf.data], dirty := v.dirty - {i})
  }

  lemma LockedHolds(v: View, bufs: seq<Buf>, i: nat)
    requires CacheInv(v, bufs) && i < NBUF && bufs[i].locked
    ensures bufs[i].dev == ROOTDEV && bufs[i].blockno < LOGICAL_DISK_SIZE == |v.logical| == |v.pins|
  {
    assert BufInv(v, i, bufs[i]);
  }

  lemma WrittenCached(v: View, bufs: seq<Buf>, v': View, i: nat)
    requires CacheInv(v, bufs) && i < NBUF && bufs[i].locked && bufs[i].blockno < |v.logical|
    requires v' == v.(logical := v.logical[bufs[i].blockno := bufs[i].data], unsynced := v.unsynced - {bufs[i].blockno},
                      dirty := v.dirty - {i})
    ensures CacheInv(v', bufs)
  {
    hide UniqueTags;
    assert BufInv(v, i, bufs[i]);
    CacheUpdate(v, bufs, v', bufs, i);
  }

  lemma LogCached(v: View, bufs: seq<Buf>, bufs': seq<Buf>, i: nat)
    requires CacheInv(v, bufs) && i < NBUF && bufs[i].locked && UniqueTags(bufs') && bufs[i].blockno < |v.pins|
    requires var pin := v.pins[bufs[i].blockno];
      0 <= pin <= 1 && bufs' == if pin == 1 then bufs else bufs[i := bufs[i].(refcnt := Wrap(bufs[i].refcnt + 1))]
    ensures CacheInv(Logged(v, bufs[i], i), bufs')
  {
    hide UniqueTags;
    assert BufInv(v, i, bufs[i]);
    WrapStep(1, 1);
    CacheUpdate(v, bufs, Logged(v, bufs[i], i), bufs', i);
  }

  // The view after disk 0 has failed: what disk 1 holds.  The holder of a buffer still has
  // what it read or wrote.
  ghost function FailedOver(v: View, bufs: seq<Buf>, disk: seq<Block>): View
    requires |disk| == FSSIZE
  {
    View(Replica(disk, 1), v.pins, v.unsynced, LockedBufs(bufs), true)
  }

  ghost function LockedBufs(bufs: seq<Buf>): set<nat> {
    set i: nat | i < |bufs| && bufs[i].locked
  }

  lemma FailedOverCached(v: View, bufs: seq<Buf>, disk: seq<Block>)
    requires CacheInv(v, bufs) && |disk| == FSSIZE
    ensures CacheInv(FailedOver(v, bufs, disk), bufs)
  {
    hide UniqueTags, Replica;
    ReplicaSize(disk);
    var w := FailedOver(v, bufs, disk);
    forall i | 0 <= i < NBUF ensures BufInv(w, i, bufs[i]) {
      assert BufInv(v, i, bufs[i]);
      assert bufs[i].locked ==> i in w.dirty;
    }
  }

  lemma FailedOverView(v: View, bufs: seq<Buf>, disk: seq<Block>)
    requires |disk| == FSSIZE
    ensures var w := FailedOver(v, bufs, disk);
      && w.logical == Replica(disk, 1) && w.pins == v.pins && w.unsynced == v.unsynced && w.dirty == LockedBufs(bufs)
      && w.degraded
  {
  }

  lemma ReplicaSize(disk: seq<Block>)
    requires |disk| == FSSIZE
    ensures |Replica(disk, 1)| == LOGICAL_DISK_SIZE
  {
  }

  // Recycling an unused buffer loses nothing: its block is not pinned.
  lemma CacheRecycle(v: View, bufs: seq<Buf>, bufs': seq<Buf>, i: nat, b: nat)
    requires CacheInv(v, bufs) && i < NBUF && b < LOGICAL_DISK_SIZE
    requires bufs[i].refcnt == 0 && !bufs[i].locked && !IsCached(bufs, ROOTDEV, b)
    requires UniqueTags(bufs') && bufs' == bufs[i := Buf(true, ROOTDEV, b, true, 1, v.logical[b])]
    ensures CacheInv(v, bufs')
  {
    assert BufInv(v, i, bufs[i]);
    forall j | 0 <= j < NBUF ensures BufInv(v, j, bufs'[j]) {
      assert BufInv(v, j, bufs[j]);
      assert v.pins[b] == 0;
    }
    forall x: nat | x < LOGICAL_DISK_SIZE && v.pins[x] != 0 ensures IsCached(bufs', ROOTDEV, x) {
      var j :| 0 <= j < NBUF && Tagged(bufs[j], ROOTDEV, x);
      assert j != i;
      assert Tagged(bufs'[j], ROOTDEV, x);
    }
  }

  lemma BwriteReaches(w: Write, failDisk: int)
    ensures |BwriteWrites(w.pbn, w.data, failDisk, -1)| > 0
    ensures Reached(failDisk, Source(failDisk), |BwriteWrites(w.pbn, w.data, failDisk, -1)|) == 1
  {
  }

  // One bwrite of logical block w.pbn, seen by the replica being read.
  lemma DiskUpdate(v: View, disk: seq<Block>, failDisk: int, w: Write)
    requires DiskInv(v.logical, v.unsynced, disk, failDisk) && w.pbn < LOGICAL_DISK_SIZE
    ensures DiskInv(v.logical[w.pbn := w.data], v.unsynced - {w.pbn},
                    Apply(disk, BwriteWrites(w.pbn, w.data, failDisk, -1)), failDisk)
  {
    hide Apply, BwriteWrites, Reached, Replica;
    var ws := BwriteWrites(w.pbn, w.data, failDisk, -1);
    BwriteReaches(w, failDisk);
    assert ws[..|ws|] == ws;
    BwritePrefix(disk, w, failDisk, |ws|, Source(failDisk));
  }

  // Logging a block leaves the disk alone, so the disk may now differ on it.
  lemma DiskLogged(v: View, v': View, disk: seq<Block>, failDisk: int, b: nat)
    requires DiskInv(v.logical, v.unsynced, disk, failDisk) && |v'.logical| == LOGICAL_DISK_SIZE
    requires v'.unsynced == v.unsynced + {b}
    requires forall x: nat :: x < LOGICAL_DISK_SIZE && (failDisk == 0 || x != b) ==> v'.logical[x] == v.logical[x]
    ensures DiskInv(v'.logical, v'.unsynced, disk, failDisk)
  {
  }

  // Every block whose pin count is not zero is in busy.
  ghost predicate PinsWithin(v: View, busy: set<nat>)
    requires WellFormed(v)
  {
    forall b: nat :: b < LOGICAL_DISK_SIZE && v.pins[b] != 0 ==> b in busy
  }

  // If fewer than NBUF blocks are pinned or locked, some buffer can be recycled.
  lemma SomeFree(v: View, bufs: seq<Buf>, busy: set<nat>)
    requires CacheInv(v, bufs) && PinsWithin(v, busy) && |busy| < NBUF
    requires forall i :: 0 <= i < NBUF && bufs[i].locked ==> bufs[i].blockno in busy
    ensures !NoneFree(bufs)
  {
    if NoneFree(bufs) {
      var s := seq(NBUF, i requires 0 <= i < NBUF => bufs[i].blockno);
      forall i | 0 <= i < NBUF ensures s[i] in busy && bufs[i].dev == ROOTDEV {
        assert BufInv(v, i, bufs[i]) && bufs[i].refcnt != 0;
      }
      Pigeonhole(s, busy);
    }
  }

  // The pinned blocks, and those whose home copy is old, are exactly the logged ones; the
  // blocks of short have lost a pin they never had.
  ghost predicate PinsMatch(pins: seq<int>, unsynced: set<nat>, lh: seq<nat>, short: set<nat>) {
    && unsynced == Elems(lh) && Elems(lh) !! short
    && forall b: nat :: b < |pins| ==> pins[b] == if b in lh then 1 else if b in short then -1 else 0
  }

  lemma PinsLogged(pins: seq<int>, unsynced: set<nat>, lh: seq<nat>, short: set<nat>, b: nat)
    requires PinsMatch(pins, unsynced, lh, short) && b < |pins| && b !in short
    ensures pins[b] == if b in lh then 1 else 0
    ensures PinsMatch(pins[b := 1], unsynced + {b}, if b in lh then lh else lh + [b], short)
  {
    assert Elems(lh + [b]) == Elems(lh) + {b};
  }

  // Whether bread finds a buffer for log slot k.
  lemma SlotFetched(v: View, bufs: seq<Buf>, l: Layout, lh: seq<nat>, short: set<nat>, k: nat)
    requires CacheInv(v, bufs) && AllUnlocked(bufs) && PinsMatch(v.pins, v.unsynced, lh, short) && Distinct(lh)
    requires ValidBlocks(l, lh) && l.Valid() && k < |lh| && forall b :: b in short ==> l.IsHome(b)
    ensures |lh| + |short| <= NBUF
    ensures |lh| + |short| == NBUF ==> !IsCached(bufs, ROOTDEV, l.start + k + 1) && NoneFree(bufs)
  {
    hide CacheInv, UniqueTags;
    var busy := Elems(lh) + short;
    DistinctSize(lh);
    PinnedFit(v, bufs, busy);
    if |busy| == NBUF {
      forall i: nat | i < NBUF ensures bufs[i].blockno in busy && bufs[i].refcnt != 0 {
        PinnedFillCache(v, bufs, busy, i);
      }
    }
  }

  // What write_log needs of the pins for log slot k.
  lemma SlotPins(v: View, l: Layout, lh: seq<nat>, short: set<nat>, k: nat)
    requires WellFormed(v) && PinsMatch(v.pins, v.unsynced, lh, short) && ValidBlocks(l, lh) && l.Valid() && k < |lh|
    requires forall b :: b in short ==> l.IsHome(b)
    ensures v.pins[l.start + k + 1] == 0 && l.start + k + 1 !in v.unsynced && v.pins[lh[k]] == 1
    ensures PinsWithin(v, Elems(lh) + short) && |Elems(lh) + short| <= |lh| + |short|
  {
    ElemsSize(lh);
  }

  // Blocks with a pin too many or too few are in different buffers.
  lemma PinnedFit(v: View, bufs: seq<Buf>, busy: set<nat>)
    requires CacheInv(v, bufs) && forall b :: b in busy ==> b < LOGICAL_DISK_SIZE && v.pins[b] != 0
    ensures |busy| <= NBUF
  {
    hide UniqueTags;
    var s := seq(NBUF, j requires 0 <= j < NBUF => bufs[j].blockno);
    forall b | b in busy ensures b in Elems(s) {
      var m :| 0 <= m < NBUF && Tagged(bufs[m], ROOTDEV, b);
      assert s[m] == b;
    }
    ElemsSize(s);
    SubsetSize(busy, Elems(s));
  }

  // NBUF blocks with a pin too many or too few take every buffer.
  lemma PinnedFillCache(v: View, bufs: seq<Buf>, busy: set<nat>, i: nat)
    requires CacheInv(v, bufs) && |busy| == NBUF && i < NBUF
    requires forall b :: b in busy ==> b < LOGICAL_DISK_SIZE && v.pins[b] != 0
    ensures bufs[i].dev == ROOTDEV && bufs[i].blockno in busy
    ensures !bufs[i].locked ==> bufs[i].refcnt != 0
  {
    hide UniqueTags;
    if !(bufs[i].dev == ROOTDEV && bufs[i].blockno in busy) {
      var s := seq(NBUF - 1, j requires 0 <= j < NBUF - 1 => bufs[if j < i then j else j + 1].blockno);
      forall b | b in busy ensures b in Elems(s) {
        var m :| 0 <= m < NBUF && Tagged(bufs[m], ROOTDEV, b);
        assert s[if m < i then m else m - 1] == b;
      }
      ElemsSize(s);
      SubsetSize(busy, Elems(s));
    }
    assert BufInv(v, i, bufs[i]);
  }

  // One pin less on each listed block.
  ghost function Unpin(pins: seq<int>, bs: seq<nat>): (r: seq<int>)
    ensures |r| == |pins|
  {
    seq(|pins|, b requires 0 <= b < |pins| => if b in bs then pins[b] - 1 else pins[b])
  }

  // The view after k rounds of install_trans.
  ghost function InstallView(v: View, l: Layout, lh: seq<nat>, k: nat): View
    requires l.Valid() && ValidBlocks(l, lh) && |v.logical| == LOGICAL_DISK_SIZE && k <= |lh|
  {
    View(Apply(v.logical, InstallWrites(lh, LogData(l, v.logical, |lh|))[..k]), Unpin(v.pins, lh[..k]),
         v.unsynced - Elems(lh[..k]), {}, v.degraded)
  }

  ghost predicate UniformPins(v: View, lh: seq<nat>, recovering: bool, short: set<nat>) {
    forall b: nat :: b < |v.pins| ==>
      v.pins[b] == if b in lh then (if recovering then 0 else 1) else if b in short then -1 else 0
  }

  lemma InstallStart(v: View, l: Layout, lh: seq<nat>)
    requires WellFormed(v) && l.Valid() && ValidBlocks(l, lh) && v.dirty == {}
    ensures InstallView(v, l, lh, 0) == v
  {
    assert Unpin(v.pins, lh[..0]) == v.pins && v.unsynced - Elems(lh[..0]) == v.unsynced;
  }

  lemma InstallRound(v: View, l: Layout, lh: seq<nat>, recovering: bool, short: set<nat>,
                     k: nat) returns (busy: set<nat>)
    requires WellFormed(v) && l.Valid() && ValidBlocks(l, lh) && Distinct(lh) && |lh| + |short| < NBUF && k < |lh|
    requires UniformPins(v, lh, recovering, short) && WellFormed(InstallView(v, l, lh, k))
    requires forall b :: b in short ==> l.IsHome(b)
    ensures var w := InstallView(v, l, lh, k);
      && w.pins[l.start + k + 1] == 0 && w.pins[lh[k]] >= 0 && PinsWithin(w, busy)
      && (|busy| + 1 < NBUF || (|busy| < NBUF && w.pins[lh[k]] != 0))
      && w.logical[l.start + k + 1] == v.logical[l.start + k + 1]
  {
    hide Apply, Elems, Distinct, UniformPins, RoundPin, Unpin;
    var data := LogData(l, v.logical, |lh|);
    InstallTouches(lh, data, k, l.start + k + 1);
    ApplyFrame(v.logical, InstallWrites(lh, data)[..k], l.start + k + 1);
    RoundPins(v, lh, recovering, short, k);
    busy := RoundBusy(lh, recovering, short, k);
    RoundPinOf(lh, recovering, short, k, l.start + k + 1);
    RoundPinOf(lh, recovering, short, k, lh[k]);
  }

  // The pins of a block before round k.
  function RoundPin(lh: seq<nat>, recovering: bool, short: set<nat>, k: nat, b: nat): int
    requires k <= |lh|
  {
    if b in lh then (if recovering then 0 else 1) - (if b in lh[..k] then 1 else 0) else if b in short then -1 else 0
  }

  lemma RoundPins(v: View, lh: seq<nat>, recovering: bool, short: set<nat>, k: nat)
    requires UniformPins(v, lh, recovering, short) && k < |lh|
    ensures forall b: nat :: b < |v.pins| ==> Unpin(v.pins, lh[..k])[b] == RoundPin(lh, recovering, short, k, b)
  {
  }

  lemma RoundPinOf(lh: seq<nat>, recovering: bool, short: set<nat>, k: nat, b: nat)
    requires k < |lh| && Distinct(lh)
    ensures b !in lh && b !in short ==> RoundPin(lh, recovering, short, k, b) == 0
    ensures b == lh[k] ==> RoundPin(lh, recovering, short, k, b) == if recovering then 0 else 1
  {
  }

  lemma RoundBusy(lh: seq<nat>, recovering: bool, short: set<nat>, k: nat) returns (busy: set<nat>)
    requires k < |lh| && |lh| + |short| < NBUF
    ensures forall b: nat :: RoundPin(lh, recovering, short, k, b) != 0 ==> b in busy
    ensures |busy| < NBUF && (recovering ==> |busy| + 1 < NBUF)
  {
    var listed := if recovering then lh[..k] else lh;
    busy := Elems(listed) + short;
    ElemsSize(listed);
  }

  lemma InstallStep(v: View, l: Layout, lh: seq<nat>, k: nat)
    requires WellFormed(v) && l.Valid() && ValidBlocks(l, lh) && Distinct(lh) && k < |lh|
    ensures var w, b := InstallView(v, l, lh, k), lh[k];
      InstallView(v, l, lh, k + 1)
      == View(w.logical[b := v.logical[l.start + k + 1]], w.pins[b := w.pins[b] - 1], w.unsynced - {b}, {},
              w.degraded)
  {
    var ws := InstallWrites(lh, LogData(l, v.logical, |lh|));
    assert ws[..k + 1][..k] == ws[..k] && ws[..k + 1][k] == ws[k];
    assert lh[..k + 1] == lh[..k] + [lh[k]];
  }

  // The four parts of commit, one after the other, as one series of writes.
  lemma CommitTrace(l: Layout, header: Block, tx: Tx, failDisk: int)
    requires ValidTx(l, tx)
    ensures var h := SetHeader(header, tx.blocks);
      Replicate(CommitWrites(l, header, tx), failDisk)
      == Replicate(LogWrites(l, tx.data), failDisk) + BwriteWrites(l.start, h, failDisk, -1)
         + Replicate(InstallWrites(tx.blocks, tx.data), failDisk)
         + BwriteWrites(l.start, SetHeader(h, []), failDisk, -1)
  {
    var h := SetHeader(header, tx.blocks);
    var a, b, c, d := LogWrites(l, tx.data), Write(l.start, h), InstallWrites(tx.blocks, tx.data),
                      Write(l.start, SetHeader(h, []));
    ReplicateConcat(a + [b] + c, [d], failDisk);
    ReplicateConcat(a + [b], c, failDisk);
    ReplicateConcat(a, [b], failDisk);
    ReplicateOne(b, failDisk);
    ReplicateOne(d, failDisk);
  }

  // The pins taken by log_write are the ones install_trans drops.
  lemma CommitUnpins(v: View, lh: seq<nat>, short: set<nat>)
    requires WellFormed(v) && PinsMatch(v.pins, v.unsynced, lh, short) && |lh| + |short| < NBUF
    ensures UniformPins(v, lh, false, short) && PinsWithin(v, Elems(lh) + short) && |Elems(lh) + short| < NBUF
    ensures PinsMatch(Unpin(v.pins, lh), v.unsynced - Elems(lh), [], short)
    ensures forall b: nat :: b < LOGICAL_DISK_SIZE && b !in short ==> Unpin(v.pins, lh)[b] == 0
  {
    ElemsSize(lh);
    assert v.unsynced - Elems(lh) == Elems([]);
  }

  // In recovery they were never taken.
  lemma RecoveryUnpins(v: View, bs: seq<nat>)
    requires WellFormed(v) && UniformPins(v, [], true, {}) && v.unsynced == {} && |bs| < NBUF
    ensures forall b: nat :: b < LOGICAL_DISK_SIZE ==> Unpin(v.pins, bs)[b] == if b in bs then -1 else 0
    ensures forall b: nat :: b < LOGICAL_DISK_SIZE && Unpin(v.pins, bs)[b] != 0 ==> b in Elems(bs)
    ensures v.unsynced - Elems(bs) == {} && |Elems(bs)| < NBUF
    ensures UniformPins(v, bs, true, {}) && PinsMatch(Unpin(v.pins, bs), {}, [], Elems(bs))
  {
    ElemsSize(bs);
    assert Elems([]) == {};
  }

  lemma RecoveryParts(l: Layout, img: seq<Block>, failDisk: int)
    requires LogReadable(l, img)
    ensures var bs := Header(img[l.start]);
      var installs := InstallWrites(bs, LogData(l, img, |bs|));
      var h := SetHeader(img[l.start], []);
      && Apply(img, installs)[l.start] == img[l.start]
      && Apply(img, RecoveryWrites(l, img)) == Apply(img, installs)[l.start := h]
      && Replicate(RecoveryWrites(l, img), failDisk)
         == Replicate(installs, failDisk) + BwriteWrites(l.start, h, failDisk, -1)
  {
    var bs := Header(img[l.start]);
    var installs := InstallWrites(bs, LogData(l, img, |bs|));
    var w := Write(l.start, SetHeader(img[l.start], []));
    InstallTouches(bs, LogData(l, img, |bs|), 0, l.start);
    ApplyFrame(img, installs, l.start);
    ApplyAppend(img, installs, w);
    ReplicateConcat(installs, [w], failDisk);
    ReplicateOne(w, failDisk);
  }

  // Committing the cached contents changes no home block of the view: the log copies
  // and the header are elsewhere, and installing writes what is there already.
  lemma CommitKeepsHome(l: Layout, img: seq<Block>, lh: seq<nat>)
    requires l.Valid() && |img| == LOGICAL_DISK_SIZE && ValidBlocks(l, lh)
    ensures var data := Contents(img, lh);
      var img1 := Apply(img, LogWrites(l, data));
      var img2 := img1[l.start := SetHeader(img1[l.start], lh)];
      && img1[l.start] == img[l.start]
      && LogData(l, img2, |lh|) == data
      && Apply(img2, InstallWrites(lh, data)) == img2
      && SameHome(l, img, img2)
  {
    hide Apply, SetHeader, SameHome, LogData, LogWrites, InstallWrites, Contents;
    ContentsSize(img, lh);
    var data := Contents(img, lh);
    var img1 := Apply(img, LogWrites(l, data));
    LogCopied(l, img, data);
    HomeCopied(l, img, lh, img1, SetHeader(img1[l.start], lh));
  }

  lemma ContentsSize(img: seq<Block>, lh: seq<nat>)
    requires forall i :: 0 <= i < |lh| ==> lh[i] < |img|
    ensures |Contents(img, lh)| == |lh|
  {
  }

  // img1 is img with the contents of the listed blocks in the log.
  lemma HomeCopied(l: Layout, img: seq<Block>, lh: seq<nat>, img1: seq<Block>, h: Block)
    requires l.Valid() && |img| == |img1| == LOGICAL_DISK_SIZE && ValidBlocks(l, lh)
    requires forall x: nat :: x < LOGICAL_DISK_SIZE ==>
      img1[x] == if l.start < x <= l.start + |lh| then Contents(img, lh)[x - l.start - 1] else img[x]
    ensures var data, img2 := Contents(img, lh), img1[l.start := h];
      && img1[l.start] == img[l.start] && LogData(l, img2, |lh|) == data
      && Apply(img2, InstallWrites(lh, data)) == img2 && SameHome(l, img, img2)
  {
    hide Apply;
    var data, img2 := Contents(img, lh), img1[l.start := h];
    assert LogData(l, img2, |lh|) == data;
    assert SameHome(l, img, img2);
    forall i | 0 <= i < |lh| ensures data[i] == img2[lh[i]] {
      assert l.IsHome(lh[i]);
    }
    ApplyIdentity(img2, InstallWrites(lh, data));
  }

  lemma LogCopied(l: Layout, img: seq<Block>, data: seq<Block>)
    requires l.Valid() && |img| == LOGICAL_DISK_SIZE && |data| <= l.size - 1
    ensures forall x: nat :: x < LOGICAL_DISK_SIZE ==>
      Apply(img, LogWrites(l, data))[x] == if l.start < x <= l.start + |data| then data[x - l.start - 1] else img[x]
  {
    hide Apply;
    var ws := LogWrites(l, data);
    assert ws[..|data|] == ws;
    forall x: nat | x < LOGICAL_DISK_SIZE
      ensures Apply(img, ws)[x] == if l.start < x <= l.start + |data| then data[x - l.start - 1] else img[x]
    {
      LogWritesAt(l, img, data, |data|, x);
    }
  }

  lemma SameHomeIf(l: Layout, a: seq<Block>, b: seq<Block>)
    requires |a| == |b| == LOGICAL_DISK_SIZE && forall x: nat :: l.IsHome(x) ==> a[x] == b[x]
    ensures SameHome(l, a, b)
  {
  }

  // ---- the view through a commit ----

  ghost predicate Fits(v: View, l: Layout, lh: seq<nat>) {
    l.Valid() && ValidBlocks(l, lh) && |v.logical| == LOGICAL_DISK_SIZE
  }

  // After write_log, after write_head and after install_trans.
  ghost function Copied(v: View, l: Layout, lh: seq<nat>): View
    requires Fits(v, l, lh)
  {
    v.(logical := Apply(v.logical, LogWrites(l, Contents(v.logical, lh))))
  }

  ghost function Headed(v: View, l: Layout, lh: seq<nat>): View
    requires Fits(v, l, lh)
  {
    v.(logical := v.logical[l.start := SetHeader(v.logical[l.start], lh)])
  }

  ghost function Installed(v: View, l: Layout, lh: seq<nat>): View
    requires Fits(v, l, lh)
  {
    View(Apply(v.logical, InstallWrites(lh, LogData(l, v.logical, |lh|))), Unpin(v.pins, lh), v.unsynced - Elems(lh),
         {}, v.degraded)
  }

  // The view and the writes after k rounds of write_log.
  ghost function CopyView(v: View, l: Layout, lh: seq<nat>, k: nat): View
    requires Fits(v, l, lh) && k <= |lh|
  {
    v.(logical := Apply(v.logical, LogWrites(l, Contents(v.logical, lh))[..k]))
  }

  ghost function CopyTrace(v: View, l: Layout, lh: seq<nat>, k: nat, failDisk: int): seq<Write>
    requires Fits(v, l, lh) && k <= |lh|
  {
    Replicate(LogWrites(l, Contents(v.logical, lh))[..k], failDisk)
  }

  lemma CopyEnds(v: View, l: Layout, lh: seq<nat>, failDisk: int)
    requires Fits(v, l, lh)
    ensures CopyView(v, l, lh, 0) == v && CopyTrace(v, l, lh, 0, failDisk) == []
    ensures CopyView(v, l, lh, |lh|) == Copied(v, l, lh)
    ensures CopyTrace(v, l, lh, |lh|, failDisk) == Replicate(LogWrites(l, Contents(v.logical, lh)), failDisk)
  {
    hide Apply, Replicate;
    var ws := LogWrites(l, Contents(v.logical, lh));
    assert ws[..|lh|] == ws && ws[..0] == [];
    ApplyIdentity(v.logical, []);
    ReplicateNone(ws, failDisk);
  }

  lemma CopyStep(v: View, l: Layout, lh: seq<nat>, k: nat, failDisk: int)
    requires Fits(v, l, lh) && k < |lh|
    ensures var w, b, data := CopyView(v, l, lh, k), l.start + k + 1, v.logical[lh[k]];
      && Fits(w, l, lh) && w.logical[lh[k]] == data
      && CopyView(v, l, lh, k + 1) == w.(logical := w.logical[b := data])
      && CopyTrace(v, l, lh, k + 1, failDisk) == CopyTrace(v, l, lh, k, failDisk) + BwriteWrites(b, data, failDisk, -1)
  {
    hide Apply, Replicate, BwriteWrites;
    var data := Contents(v.logical, lh);
    var ws := LogWrites(l, data);
    LogWritesAt(l, v.logical, data, k, lh[k]);
    ReplicateStep(ws, k, failDisk);
    assert ws[..k + 1] == ws[..k] + [ws[k]];
    ApplyAppend(v.logical, ws[..k], ws[k]);
  }

  // What commit needs of the view at each of its steps, and what it leaves.
  lemma CommitLaw(v: View, l: Layout, lh: seq<nat>, short: set<nat>)
    requires WellFormed(v) && Fits(v, l, lh) && PinsMatch(v.pins, v.unsynced, lh, short) && v.dirty == {}
    requires |lh| + |short| < NBUF && forall b :: b in short ==> l.IsHome(b)
    ensures var v1 := Copied(v, l, lh);
      && Fits(v1, l, lh) && WellFormed(v1) && v1.pins[l.start] == 0
      && PinsWithin(v1, Elems(lh) + short) && |Elems(lh) + short| < NBUF
      && var v2 := Headed(v1, l, lh);
      && Fits(v2, l, lh) && UniformPins(v2, lh, false, short)
      && var v3 := Installed(v2, l, lh);
      && Fits(v3, l, []) && WellFormed(v3) && v3.pins[l.start] == 0 && PinsWithin(v3, short) && |short| < NBUF
      && var v4 := Headed(v3, l, []);
      && WellFormed(v4) && PinsMatch(v4.pins, v4.unsynced, [], short)
      && SameHome(l, v.logical, v4.logical) && LogEmpty(l, v4.logical)
  {
    hide Apply, SetHeader, Header, HeaderOk;
    CommitKeepsHome(l, v.logical, lh);
    CommitUnpins(v, lh, short);
    var v3 := Installed(Headed(Copied(v, l, lh), l, lh), l, lh);
    HeaderRoundTrip(v3.logical[l.start], []);
  }

  // The writes of the four steps are those of the transaction.
  lemma CommitTraceLaw(v: View, l: Layout, lh: seq<nat>, failDisk: int)
    requires Fits(v, l, lh) && Distinct(lh) && lh != []
    ensures var tx := Tx(lh, Contents(v.logical, lh));
      && ValidTx(l, tx)
      && var v1 := Copied(v, l, lh);
      && Fits(v1, l, lh)
      && var v2 := Headed(v1, l, lh);
      && Fits(v2, l, lh)
      && var v3 := Installed(v2, l, lh);
      && |v3.logical| == LOGICAL_DISK_SIZE
      && Replicate(CommitWrites(l, v.logical[l.start], tx), failDisk)
         == Replicate(LogWrites(l, tx.data), failDisk)
            + BwriteWrites(l.start, SetHeader(v1.logical[l.start], lh), failDisk, -1)
            + Replicate(InstallWrites(lh, LogData(l, v2.logical, |lh|)), failDisk)
            + BwriteWrites(l.start, SetHeader(v3.logical[l.start], []), failDisk, -1)
  {
    hide Apply, SetHeader, Header, HeaderOk, Replicate, BwriteWrites, LogWrites, InstallWrites, CommitWrites, Unpin,
         Elems;
    CommitKeepsHome(l, v.logical, lh);
    CommitTrace(l, v.logical[l.start], Tx(lh, Contents(v.logical, lh)), failDisk);
  }

  // The same for recovery of the blocks bs, which no log_write has pinned.
  lemma RecoveryLaw(v: View, l: Layout, bs: seq<nat>)
    requires WellFormed(v) && UniformPins(v, [], true, {}) && v.unsynced == {} && v.dirty == {}
    requires LogReadable(l, v.logical) && bs == Header(v.logical[l.start]) && |bs| < NBUF
    ensures Fits(v, l, bs) && UniformPins(v, bs, true, {}) && |Elems(bs)| < NBUF
    ensures forall b :: b in Elems(bs) ==> l.IsHome(b) && b in bs
    ensures var v1 := Installed(v, l, bs);
      && Fits(v1, l, []) && WellFormed(v1) && v1.pins[l.start] == 0 && PinsWithin(v1, Elems(bs))
      && var v2 := Headed(v1, l, []);
      && PinsMatch(v2.pins, v2.unsynced, [], Elems(bs)) && LogEmpty(l, v2.logical)
      && v2.logical == Apply(v.logical, RecoveryWrites(l, v.logical))
      && forall b: nat :: b < LOGICAL_DISK_SIZE ==> v2.pins[b] == if b in bs then -1 else 0
  {
    hide Apply, SetHeader, RecoveryWrites;
    RecoveryParts(l, v.logical, -1);
    RecoveryUnpins(v, bs);
    HeaderRoundTrip(v.logical[l.start], []);
  }

  lemma RecoveryTraceLaw(v: View, l: Layout, failDisk: int)
    requires LogReadable(l, v.logical)
    ensures var bs := Header(v.logical[l.start]);
      && Fits(v, l, bs)
      && var v1 := Installed(v, l, bs);
      && |v1.logical| == LOGICAL_DISK_SIZE
      && Replicate(RecoveryWrites(l, v.logical), failDisk)
         == Replicate(InstallWrites(bs, LogData(l, v.logical, |bs|)), failDisk)
            + BwriteWrites(l.start, SetHeader(v1.logical[l.start], []), failDisk, -1)
  {
    hide Apply, SetHeader, RecoveryWrites, Replicate, BwriteWrites;
    RecoveryParts(l, v.logical, failDisk);
  }

  lemma ReadableLog(l: Layout, img: seq<Block>)
    requires LogReadable(l, img)
    ensures l.Valid() && |img| == LOGICAL_DISK_SIZE && HeaderOk(img[l.start])
    ensures ValidBlocks(l, Header(img[l.start]))
  {
  }

  lemma HeadFits(l: Layout, lh: seq<nat>)
    requires ValidBlocks(l, lh)
    ensures |lh| <= LOGSIZE && forall i :: 0 <= i < |lh| ==> lh[i] < UINT_LIMIT
  {
  }

  lemma Appended<T>(t: seq<T>, a: seq<T>, b: seq<T>, c: seq<T>, d: seq<T>)
    ensures t + a + b + c + d == t + (a + b + c + d)
  {
  }

  class Log {
    const cache: Cache
    const l: Layout
    var lh: seq<nat>       // lh.block[0..lh.n)
    var outstanding: nat
    ghost var view: View
    ghost var short: set<nat>   // blocks installed at boot, one reference short
    ghost var ops: LogReservation.State   // what each outstanding operation has logged

    ghost predicate Inv()
      reads this, cache
    {
      && cache.Valid() && l.Valid() && cache.failPbn == -1
      && CacheInv(view, cache.bufs)
      && DiskInv(view.logical, view.unsynced, cache.disk, cache.failDisk)
      && view.degraded == (cache.failDisk == 0)
    }

    // No buffer is in use.
    ghost predicate Quiet()
      reads this, cache
    {
      view.dirty == {} && AllUnlocked(cache.bufs)
    }

    // Between recovery and the next commit: the pinned blocks are exactly the logged ones,
    // and the blocks installed at boot, none of them logged since, are short.
    ghost predicate Operating()
      reads this, cache
    {
      && Inv() && ValidBlocks(l, lh) && Distinct(lh)
      && PinsMatch(view.pins, view.unsynced, lh, short) && (forall b :: b in short ==> l.IsHome(b))
    }

    // initlog up to recovery: an empty cache over the device as the crash left it.
    constructor (cache: Cache, l: Layout)
      requires cache.Valid() && l.Valid() && cache.failPbn == -1
      requires forall i :: 0 <= i < NBUF ==> cache.bufs[i] == Buf(false, 0, 0, false, 0, ZERO_BLOCK)
      ensures this.cache == cache && this.l == l && Inv() && Quiet() && lh == [] && outstanding == 0 && short == {}
      ensures ops == LogReservation.INIT
      ensures view == View(Replica(cache.disk, Source(cache.failDisk)), seq(LOGICAL_DISK_SIZE, _ => 0), {}, {},
                           cache.failDisk == 0)
    {
      this.cache, this.l, lh, outstanding := cache, l, [], 0;
      view := View(Replica(cache.disk, Source(cache.failDisk)), seq(LOGICAL_DISK_SIZE, _ => 0), {}, {},
                   cache.failDisk == 0);
      short, ops := {}, LogReservation.INIT;
    }

    // bread: always the contents of the view.
    method Fetch(b: nat) returns (r: Option<nat>)
      requires Inv() && b < LOGICAL_DISK_SIZE && cache.Unlocked(ROOTDEV, b)
      modifies cache`bufs
      ensures Inv()
      ensures r.None? ==> cache.bufs == old(cache.bufs)
      ensures r.None? <==> !IsCached(old(cache.bufs), ROOTDEV, b) && NoneFree(old(cache.bufs))
      ensures r.Some? ==>
        var i := r.value;
        && i < NBUF && cache.bufs == old(cache.bufs)[i := cache.bufs[i]]
        && i !in view.dirty && !old(cache.bufs)[i].locked
        && Tagged(cache.bufs[i], ROOTDEV, b) && cache.bufs[i].locked && cache.bufs[i].data == view.logical[b]
    {
      ghost var bufs0 := cache.bufs;
      r := cache.Bread(b);
      if r.Some? {
        ghost var i := r.value;
        assert BufInv(view, i, bufs0[i]);
        assert view.degraded || b !in view.unsynced ==> cache.DeviceRead(b) == view.logical[b];
        if Tagged(bufs0[i], ROOTDEV, b) {
          WrapStep(view.pins[b], 1);
          CacheUpdate(view, bufs0, view, cache.bufs, i);
        } else {
          assert bufs0[i].refcnt == 0;
          assert b !in view.unsynced;
          CacheRecycle(view, bufs0, cache.bufs, i, b);
        }
      }
    }

    // brelse of a buffer whose changes, if any, have been logged.  While disk 0 is down they
    // are forgotten.
    method Release(i: nat)
      requires Inv() && i < NBUF && cache.bufs[i].locked && (i !in view.dirty || view.degraded)
      modifies this`view, cache`bufs, cache`lru, cache`uses
      ensures Inv() && view == old(view).(dirty := old(view).dirty - {i})
      ensures i !in old(view).dirty ==> view == old(view)
      ensures cache.bufs == old(cache.bufs)[i := cache.bufs[i]]
      ensures !cache.bufs[i].locked && Tagged(cache.bufs[i], ROOTDEV, old(cache.bufs)[i].blockno)
    {
      ghost var bufs0 := cache.bufs;
      assert BufInv(view, i, bufs0[i]);
      cache.Brelse(i);
      WrapStep(1 + view.pins[bufs0[i].blockno], -1);
      ghost var v := view.(dirty := view.dirty - {i});
      CacheUpdate(view, bufs0, v, cache.bufs, i);
      assert i !in view.dirty ==> view.dirty - {i} == view.dirty;
      view := v;
    }

    // The holder of a buffer changes its contents.
    method Modify(i: nat, data: Block)
      requires Inv() && i < NBUF && cache.bufs[i].locked
      modifies this`view, cache`bufs
      ensures Inv() && view == old(view).(dirty := old(view).dirty + {i})
      ensures cache.bufs == old(cache.bufs)[i := old(cache.bufs)[i].(data := data)]
    {
      ghost var bufs0 := cache.bufs;
      assert BufInv(view, i, bufs0[i]);
      cache.SetData(i, data);
      ghost var v := view.(dirty := view.dirty + {i});
      CacheUpdate(view, bufs0, v, cache.bufs, i);
      view := v;
    }

    // bwrite: the buffer's contents become the block's, on disk too.
    method WriteThrough(i: nat)
      requires Inv() && i < NBUF && cache.bufs[i].locked
      modifies this`view, cache`disk, cache`trace
      ensures Inv()
      ensures var b, data := cache.bufs[i].blockno, cache.bufs[i].data;
        && b < LOGICAL_DISK_SIZE
        && cache.trace == old(cache.trace) + BwriteWrites(b, data, cache.failDisk, -1)
        && view == old(view).(logical := old(view).logical[b := data], unsynced := old(view).unsynced - {b},
                              dirty := old(view).dirty - {i})
    {
      hide CacheInv, DiskInv, IsOrder, Cache.Traced, UniqueTags, Apply, BwriteWrites;
      ghost var b, data := cache.bufs[i].blockno, cache.bufs[i].data;
      LockedHolds(view, cache.bufs, i);
      DiskUpdate(view, cache.disk, cache.failDisk, Write(b, data));
      cache.Bwrite(i);
      ghost var v := view.(logical := view.logical[b := data], unsynced := view.unsynced - {b},
                           dirty := view.dirty - {i});
      WrittenCached(view, cache.bufs, v, i);
      view := v;
    }

    // The absorption loop of log_write.
    static method FindSlot(bs: seq<nat>, b: nat) returns (k: nat)
      ensures k <= |bs| && (k < |bs| ==> bs[k] == b) && (k == |bs| <==> b !in bs)
    {
      k := 0;
      while k < |bs| && bs[k] != b
        invariant 0 <= k <= |bs|
        invariant b !in bs[..k]
      {
        k := k + 1;
      }
      assert k == |bs| ==> bs[..k] == bs;
    }

    // log_write: the buffer's contents become the block's, unless disk 0 is down; the home copy
    // stays as it is until commit.  A block logged again takes no new slot (absorption).  The result
    // false is one of the two panics.
    method LogWrite(i: nat) returns (ok: bool)
      requires Operating() && i < NBUF && cache.bufs[i].locked
      requires l.IsHome(cache.bufs[i].blockno) && cache.bufs[i].blockno !in short
      modifies this`view, this`lh, cache`bufs
      ensures ok <==> old(|lh| < LOGSIZE && |lh| < l.size - 1 && outstanding >= 1)
      ensures !ok ==> view == old(view) && lh == old(lh) && cache.bufs == old(cache.bufs)
      ensures ok ==>
        var b := old(cache.bufs)[i].blockno;
        && Operating()
        && lh == (if b in old(lh) then old(lh) else old(lh) + [b])
        && view.logical == (if view.degraded then old(view).logical
                            else old(view).logical[b := old(cache.bufs)[i].data])
        && view.dirty == (if view.degraded then old(view).dirty else old(view).dirty - {i})
        && view.degraded == old(view).degraded
        && cache.bufs == old(cache.bufs)[i := cache.bufs[i]] && cache.bufs[i].locked
        && Tagged(cache.bufs[i], ROOTDEV, b) && cache.bufs[i].data == old(cache.bufs)[i].data
    {
      hide CacheInv, DiskInv, UniqueTags, IsOrder, Cache.Traced, Header, HeaderOk, LogData, PinsMatch, Elems;
      if |lh| >= LOGSIZE || |lh| >= l.size - 1 || outstanding < 1 {
        return false;
      }
      ghost var bufs0 := cache.bufs;
      var b := cache.bufs[i].blockno;
      LockedHolds(view, bufs0, i);
      PinsLogged(view.pins, view.unsynced, lh, short, b);
      var k := FindSlot(lh, b);
      if k == |lh| {
        cache.Bpin(i);
        lh := lh + [b];
      }
      LogCached(view, bufs0, cache.bufs, i);
      DiskLogged(view, Logged(view, bufs0[i], i), cache.disk, cache.failDisk, b);
      view := Logged(view, bufs0[i], i);
      return true;
    }

    // sys_force_disk_fail, except for disk 0 coming back.  When disk 0 fails, what the layer
    // gives its users becomes what disk 1 holds; otherwise nothing changes.
    method FailDisk(id: int) returns (ok: bool)
      requires Inv() && (view.degraded ==> !(-1 <= id <= 1) || id == 0)
      modifies this`view, cache`failDisk
      ensures Inv() && (old(Operating()) ==> Operating()) && (ok <==> -1 <= id <= 1)
      ensures cache.failDisk == if ok then id else old(cache.failDisk)
      ensures view == if ok && id == 0
        && !old(view).degraded then FailedOver(old(view), cache.bufs, cache.disk) else old(view)
    {
      hide CacheInv, UniqueTags, IsOrder, Cache.Traced, PinsMatch, Distinct, FailedOver;
      ok := cache.ForceDiskFail(id);
      if ok && id == 0 && !view.degraded {
        FailedOverCached(view, cache.bufs, cache.disk);
        FailedOverView(view, cache.bufs, cache.disk);
        view := FailedOver(view, cache.bufs, cache.disk);
      }
    }

    // While disk 0 is down the users of the layer read disk 1.
    lemma DegradedView()
      requires Inv() && view.degraded
      ensures view.logical == Replica(cache.disk, 1)
    {
      hide CacheInv, UniqueTags, IsOrder, Cache.Traced;
    }

    // What bread gives once disk 0 has failed: the contents from before, exactly if disk 1 holds
    // them.  With the two halves of the device alike, that is the state of the last commit.
    method FetchAfterFailure(b: nat) returns (r: Option<nat>)
      requires Inv() && Quiet() && b < LOGICAL_DISK_SIZE
      modifies this`view, cache`failDisk, cache`bufs
      ensures Inv() && (r.None? <==> !IsCached(old(cache.bufs), ROOTDEV, b) && NoneFree(old(cache.bufs)))
      ensures r.Some? ==>
        && r.value < NBUF && Tagged(cache.bufs[r.value], ROOTDEV, b)
        && (cache.bufs[r.value].data == old(view).logical[b] <==> Replica(cache.disk, 1)[b] == old(view).logical[b])
        && (Replica(cache.disk, 0)[b] == Replica(cache.disk, 1)[b] && !old(view).degraded ==>
              cache.bufs[r.value].data == if b in old(view).unsynced then Replica(cache.disk, 0)[b]
                  else old(view).logical[b])
    {
      hide CacheInv, UniqueTags, IsOrder, Cache.Traced, NoneFree, IsCached, FailedOver, Replica;
      BeforeFailure(b);
      var ok := FailDisk(0);
      DegradedView();
      FailedOverView(old(view), cache.bufs, cache.disk);
      FetchReady(0, b);
      r := Fetch(b);
    }

    lemma BeforeFailure(b: nat)
      requires Inv() && Quiet() && b < LOGICAL_DISK_SIZE
      ensures !view.degraded && b !in view.unsynced ==> Replica(cache.disk, 0)[b] == view.logical[b]
      ensures LockedBufs(cache.bufs) == {}
    {
      hide CacheInv, UniqueTags, IsOrder, Cache.Traced, Replica;
    }

    // A logged update is lost if disk 0 is down at the next bread: bread, memmove, log_write and
    // brelse of block b, then disk 0 fails, unless it is down already, then bread gives what
    // disk 1 held from the beginning.  None is a panic of bget or log_write.
    method DegradedUpdateLost(b: nat, data: Block) returns (r: Option<nat>)
      requires Operating() && Quiet() && l.IsHome(b) && b !in short
      modifies this`view, this`lh, cache`failDisk, cache`bufs, cache`lru, cache`uses
      ensures r.Some? <==>
        && (IsCached(old(cache.bufs), ROOTDEV, b) || !NoneFree(old(cache.bufs)))
        && old(|lh| < LOGSIZE && |lh| < l.size - 1 && outstanding >= 1)
      ensures r.Some? ==>
        && Operating() && b in lh && cache.disk == old(cache.disk) && r.value < NBUF
        && Tagged(cache.bufs[r.value], ROOTDEV, b) && cache.bufs[r.value].data == Replica(old(cache.disk), 1)[b]
    {
      hide CacheInv, DiskInv, UniqueTags, IsOrder, Cache.Traced, NoneFree, IsCached, FailedOver, Replica, PinsMatch,
           Distinct, LeastRecentUnused, Tagged;
      FetchReady(0, b);
      var first := Fetch(b);
      if first.None? {
        return None;
      }
      var i := first.value;
      ghost var v0 := view;
      Modify(i, data);
      var ok := LogWrite(i);
      if !ok {
        return None;
      }
      Release(i);
      assert view.dirty == {};
      LoggedStaysCached(b);
      BeforeFailure(b);
      ghost var v1 := view;
      ok := FailDisk(0);
      DegradedView();
      FailedOverView(v1, cache.bufs, cache.disk);
      FetchReady(0, b);
      r := Fetch(b);
    }

    // A logged block stays in the cache: bget cannot pick its buffer.
    lemma LoggedStaysCached(b: nat)
      requires Operating() && b in lh
      ensures IsCached(cache.bufs, ROOTDEV, b)
      ensures forall i: nat :: i < NBUF && Tagged(cache.bufs[i], ROOTDEV, b) ==>
        !LeastRecentUnused(cache.bufs, cache.uses, i)
    {
      hide DiskInv, IsOrder, Cache.Traced, Header, HeaderOk;
      assert view.pins[b] == 1;
      forall i: nat | i < NBUF && Tagged(cache.bufs[i], ROOTDEV, b) ensures cache.bufs[i].refcnt != 0 {
        assert BufInv(view, i, cache.bufs[i]);
      }
    }

    // Where the logged blocks and the short ones are NBUF, a commit cannot start: no buffer is
    // left for the first block of the log, and bread panics.
    lemma FullLogStarvesCommit()
      requires Operating() && Quiet() && lh != [] && |lh| + |short| == NBUF
      ensures l.start + 1 < LOGICAL_DISK_SIZE && !IsCached(cache.bufs, ROOTDEV, l.start + 1) && NoneFree(cache.bufs)
    {
      hide CacheInv, DiskInv, IsOrder, UniqueTags, Cache.Traced, Header, HeaderOk, PinsMatch;
      SlotFetched(view, cache.bufs, l, lh, short, 0);
    }

    // Nothing blocks a fetch while at most buffer i, of another block, is in use.
    lemma FetchReady(i: nat, b: nat)
      requires Inv() && view.dirty == {}
      requires forall j :: 0 <= j < NBUF && cache.bufs[j].locked ==> j == i && cache.bufs[j].blockno != b
      requires forall j :: 0 <= j < NBUF && cache.bufs[j].locked ==> view.pins[cache.bufs[j].blockno] == 0
      ensures cache.Unlocked(ROOTDEV, b)
    {
      forall j | 0 <= j < NBUF && cache.bufs[j].refcnt == 0 ensures !cache.bufs[j].locked {
        assert BufInv(view, j, cache.bufs[j]);
      }
    }

    // memmove into a locked buffer, then bwrite it.
    method Overwrite(i: nat, data: Block)
      requires Inv() && i < NBUF && cache.bufs[i].locked && view.dirty == {}
      modifies this`view, cache`bufs, cache`disk, cache`trace
      ensures Inv() && cache.bufs == old(cache.bufs)[i := old(cache.bufs)[i].(data := data)]
      ensures var b := cache.bufs[i].blockno;
        && b < LOGICAL_DISK_SIZE
        && cache.trace == old(cache.trace) + BwriteWrites(b, data, cache.failDisk, -1)
        && view == old(view).(logical := old(view).logical[b := data], unsynced := old(view).unsynced - {b})
    {
      Modify(i, data);
      WriteThrough(i);
    }

    // The loop of write_head.
    static method StoreHeader(b: Block, bs: seq<nat>) returns (h: Block)
      requires |bs| <= LOGSIZE && forall i :: 0 <= i < |bs| ==> bs[i] < UINT_LIMIT
      ensures h == SetHeader(b, bs)
    {
      h := SetWord(b, 0, |bs|);
      ghost var h0 := h;
      for k := 0 to |bs|
        invariant h == SetEntries(h0, bs[..k])
      {
        assert bs[..k + 1][..k] == bs[..k];
        h := SetWord(h, k + 1, bs[k]);
      }
      assert bs[..|bs|] == bs;
    }

    // write_head: store the in-memory header in the header block, on disk.
    method WriteHead(ghost busy: set<nat>)
      requires Inv() && Quiet() && ValidBlocks(l, lh) && view.pins[l.start] == 0
      requires PinsWithin(view, busy) && |busy| < NBUF
      modifies this`view, cache`bufs, cache`lru, cache`uses, cache`disk, cache`trace
      ensures Inv() && Quiet()
      ensures var h := SetHeader(old(view).logical[l.start], lh);
        && cache.trace == old(cache.trace) + BwriteWrites(l.start, h, cache.failDisk, -1)
        && view == Headed(old(view), l, lh)
    {
      hide CacheInv, DiskInv, UniqueTags, IsOrder, SetHeader, Cache.Traced, BwriteWrites, Apply, PinsWithin, NoneFree,
           IsCached, ValidBlocks;
      HeadFits(l, lh);
      FetchReady(0, l.start);
      SomeFree(view, cache.bufs, busy);
      var r := Fetch(l.start);
      var h := StoreHeader(cache.bufs[r.value].data, lh);
      Overwrite(r.value, h);
      assert l.start !in view.unsynced;
      Release(r.value);
    }

    // The two breads at the head of write_log and install_trans.  None is the panic of bget.
    method FetchPair(slot: nat, home: nat, ghost busy: set<nat>) returns (r: Option<(nat, nat)>)
      requires Inv() && Quiet() && slot < LOGICAL_DISK_SIZE && home < LOGICAL_DISK_SIZE && slot != home
      requires view.pins[slot] == 0 && PinsWithin(view, busy)
      requires |busy| + 1 < NBUF || view.pins[home] != 0
      modifies cache`bufs
      ensures r.None? <==> !IsCached(old(cache.bufs), ROOTDEV, slot) && NoneFree(old(cache.bufs))
      ensures |busy| < NBUF ==> r.Some?
      ensures r.Some? ==>
        var (i, j) := r.value;
        && Inv() && i < NBUF && j < NBUF && i != j
        && (forall k :: 0 <= k < NBUF && k != i && k != j ==> !cache.bufs[k].locked)
        && Tagged(cache.bufs[i], ROOTDEV, slot) && cache.bufs[i].locked
        && Tagged(cache.bufs[j], ROOTDEV, home) && cache.bufs[j].locked
        && cache.bufs[i].data == view.logical[slot] && cache.bufs[j].data == view.logical[home]
    {
      hide DiskInv, IsOrder, UniqueTags, Cache.Traced, NoneFree;
      FetchReady(0, slot);
      if |busy| < NBUF {
        SomeFree(view, cache.bufs, busy);
      }
      var first := Fetch(slot);
      if first.None? {
        return None;
      }
      FetchReady(first.value, home);
      if view.pins[home] == 0 {
        SomeFree(view, cache.bufs, busy + {slot});
      }
      var second := Fetch(home);
      return Some((first.value, second.value));
    }

    method ReleasePair(i: nat, j: nat)
      requires Inv() && i < NBUF && j < NBUF && i != j && view.dirty == {}
      requires cache.bufs[i].locked && cache.bufs[j].locked
      requires forall k :: 0 <= k < NBUF && k != i && k != j ==> !cache.bufs[k].locked
      modifies this`view, cache`bufs, cache`lru, cache`uses
      ensures Inv() && Quiet() && view == old(view)
    {
      Release(i);
      Release(j);
    }

    // One round of write_log: copy the cached block lh[k] to log slot k.  The result false is
    // the panic of bget.
    method WriteLogBlock(k: nat) returns (ok: bool)
      requires Operating() && Quiet() && k < |lh|
      modifies this`view, cache`bufs, cache`lru, cache`uses, cache`disk, cache`trace
      ensures ok <==> |lh| + |short| < NBUF
      ensures ok ==>
        var b, data := l.start + k + 1, old(view).logical[lh[k]];
        && Operating() && Quiet()
        && cache.trace == old(cache.trace) + BwriteWrites(b, data, cache.failDisk, -1)
        && view == old(view).(logical := old(view).logical[b := data])
    {
      hide CacheInv, DiskInv, UniqueTags, IsOrder, Cache.Traced, BwriteWrites, PinsMatch, PinsWithin, Elems, Distinct,
           NoneFree, IsCached;
      SlotPins(view, l, lh, short, k);
      SlotFetched(view, cache.bufs, l, lh, short, k);
      ghost var v := view;
      var b := l.start + k + 1;
      var pair := FetchPair(b, lh[k], Elems(lh) + short);
      if pair.None? {
        return false;
      }
      var (to, from) := pair.value;
      var data := cache.bufs[from].data;
      Overwrite(to, data);
      assert view == v.(logical := v.logical[b := data]);
      ReleasePair(from, to);
      return true;
    }

    // write_log: copy the modified blocks from the cache to the log.
    method WriteLog() returns (ok: bool)
      requires Operating() && Quiet()
      modifies this`view, cache`bufs, cache`lru, cache`uses, cache`disk, cache`trace
      ensures ok <==> lh == [] || |lh| + |short| < NBUF
      ensures ok ==>
        var ws := LogWrites(l, Contents(old(view).logical, lh));
        && Operating() && Quiet()
        && cache.trace == old(cache.trace) + Replicate(ws, cache.failDisk)
        && view == Copied(old(view), l, lh)
    {
      hide CacheInv, DiskInv, UniqueTags, IsOrder, Cache.Traced, Replicate, BwriteWrites, Elems, PinsMatch, Distinct,
           CopyView, CopyTrace, Copied, LogWrites, Contents;
      ghost var v0 := view;
      CopyEnds(v0, l, lh, cache.failDisk);
      var k := 0;
      while k < |lh|
        invariant 0 <= k <= |lh| && (k > 0 ==> |lh| + |short| < NBUF)
        invariant Operating() && Quiet()
        invariant cache.trace == old(cache.trace) + CopyTrace(v0, l, lh, k, cache.failDisk)
        invariant view == CopyView(v0, l, lh, k)
      {
        CopyStep(v0, l, lh, k, cache.failDisk);
        ok := WriteLogBlock(k);
        if !ok {
          return;
        }
        k := k + 1;
      }
      return true;
    }

    method DropPin(i: nat)
      requires Inv() && i < NBUF && cache.bufs[i].locked && view.dirty == {}
      requires cache.bufs[i].blockno !in view.unsynced
      requires cache.bufs[i].blockno < LOGICAL_DISK_SIZE && view.pins[cache.bufs[i].blockno] >= 0
      modifies this`view, cache`bufs
      ensures Inv() && cache.bufs == old(cache.bufs)[i := cache.bufs[i]] && cache.bufs[i].locked
      ensures Tagged(cache.bufs[i], ROOTDEV, old(cache.bufs)[i].blockno)
      ensures var b := cache.bufs[i].blockno;
        view == old(view).(pins := old(view).pins[b := old(view).pins[b] - 1])
    {
      hide DiskInv, IsOrder, Cache.Traced;
      ghost var bufs0, b := cache.bufs, cache.bufs[i].blockno;
      assert BufInv(view, i, bufs0[i]);
      cache.Bunpin(i);
      WrapStep(1 + view.pins[b], -1);
      ghost var v := view.(pins := view.pins[b := view.pins[b] - 1]);
      CacheUpdate(view, bufs0, v, cache.bufs, i);
      view := v;
    }

    // One round of install_trans: copy log slot k to the home block lh[k], on disk, and
    // drop the pin on the home block's buffer.
    method InstallBlock(k: nat, ghost busy: set<nat>)
      requires Inv() && Quiet() && ValidBlocks(l, lh) && k < |lh|
      requires view.pins[l.start + k + 1] == 0 && view.pins[lh[k]] >= 0 && PinsWithin(view, busy)
      requires |busy| + 1 < NBUF || (|busy| < NBUF && view.pins[lh[k]] != 0)
      modifies this`view, cache`bufs, cache`lru, cache`uses, cache`disk, cache`trace
      ensures Inv() && Quiet()
      ensures var b, data := lh[k], old(view).logical[l.start + k + 1];
        && cache.trace == old(cache.trace) + BwriteWrites(b, data, cache.failDisk, -1)
        && view == View(old(view).logical[b := data], old(view).pins[b := old(view).pins[b] - 1],
                        old(view).unsynced - {b}, {}, old(view).degraded)
    {
      hide CacheInv, DiskInv, UniqueTags, IsOrder, Cache.Traced;
      var pair := FetchPair(l.start + k + 1, lh[k], busy);
      var (from, to) := pair.value;
      Overwrite(to, cache.bufs[from].data);
      DropPin(to);
      ReleasePair(from, to);
    }

    // install_trans: copy the committed blocks from the log to their home locations.
    // In recovery nothing was pinned, and every block loses a pin it never had.
    method InstallTrans(ghost recovering: bool)
      requires Inv() && Quiet() && ValidBlocks(l, lh) && Distinct(lh) && |lh| + |short| < NBUF
      requires UniformPins(view, lh, recovering, short) && forall b :: b in short ==> l.IsHome(b)
      modifies this`view, cache`bufs, cache`lru, cache`uses, cache`disk, cache`trace
      ensures Inv() && Quiet()
      ensures var ws := InstallWrites(lh, LogData(l, old(view).logical, |lh|));
        && cache.trace == old(cache.trace) + Replicate(ws, cache.failDisk)
        && view == Installed(old(view), l, lh)
    {
      hide CacheInv, DiskInv, UniqueTags, IsOrder, Cache.Traced, Apply, Unpin, Elems, Replicate, BwriteWrites;
      ghost var v0 := view;
      ghost var ws := InstallWrites(lh, LogData(l, view.logical, |lh|));
      var k := 0;
      InstallStart(v0, l, lh);
      ReplicateNone(ws, cache.failDisk);
      while k < |lh|
        invariant 0 <= k <= |lh|
        invariant Inv() && Quiet()
        invariant cache.trace == old(cache.trace) + Replicate(ws[..k], cache.failDisk)
        invariant view == InstallView(v0, l, lh, k)
      {
        ghost var busy := InstallRound(v0, l, lh, recovering, short, k);
        InstallBlock(k, busy);
        InstallStep(v0, l, lh, k);
        ReplicateStep(ws, k, cache.failDisk);
        k := k + 1;
      }
      assert ws[..k] == ws && lh[..k] == lh;
    }

    // commit: the disk receives exactly the writes of CommitWrites, in that order, and
    // no block's contents change for the users of the layer.  The result false is the panic of
    // bget, where the logged blocks and the short ones take every buffer.
    method Commit() returns (ok: bool)
      requires Operating() && Quiet()
      modifies this`view, this`lh, cache`bufs, cache`lru, cache`uses, cache`disk, cache`trace
      ensures ok <==> old(lh) == [] || |old(lh)| + |short| < NBUF
      ensures ok ==>
        && Operating() && Quiet() && lh == [] && SameHome(l, old(view).logical, view.logical)
        && (old(lh) != [] || LogEmpty(l, old(view).logical) ==> LogEmpty(l, view.logical))
      ensures old(lh) == [] ==> cache.trace == old(cache.trace) && view == old(view)
      ensures ok && old(lh) != [] ==>
        var tx := Tx(old(lh), Contents(old(view).logical, old(lh)));
        && ValidTx(l, tx)
        && cache.trace == old(cache.trace)
           + Replicate(CommitWrites(l, old(view).logical[l.start], tx), cache.failDisk)
    {
      hide CacheInv, DiskInv, UniqueTags, IsOrder, Cache.Traced, SetHeader, PinsMatch, Elems, PinsWithin, UniformPins,
           Replicate, BwriteWrites, LogWrites, InstallWrites, CommitWrites, LogData, Contents, Copied, Headed,
               Installed,
           LogEmpty, SameHome, ValidTx;
      SameHomeIf(l, view.logical, view.logical);
      if |lh| > 0 {
        ghost var t0, v0, lh0 := cache.trace, view, lh;
        SlotFetched(view, cache.bufs, l, lh, short, 0);
        ok := WriteLog();
        if !ok {
          return;
        }
        CommitLaw(v0, l, lh, short);
        CommitTraceLaw(v0, l, lh, cache.failDisk);
        ghost var t1, v1 := cache.trace, view;
        WriteHead(Elems(lh) + short);
        ghost var t2, v2 := cache.trace, view;
        InstallTrans(false);
        ghost var t3, v3 := cache.trace, view;
        lh := [];
        WriteHead(short);
        Appended(t0, t1[|t0|..], t2[|t1|..], t3[|t2|..], cache.trace[|t3|..]);
      }
      return true;
    }

    // Commit while disk 0 is down: the transaction consists of what disk 1 holds already, so none
    // of its home blocks changes, whatever had been logged.
    method CommitDegraded() returns (ok: bool)
      requires Operating() && Quiet() && view.degraded
      modifies this`view, this`lh, cache`bufs, cache`lru, cache`uses, cache`disk, cache`trace
      ensures ok <==> old(lh) == [] || |old(lh)| + |short| < NBUF
      ensures ok ==>
        Operating() && Quiet() && lh == [] && SameHome(l, Replica(old(cache.disk), 1), Replica(cache.disk, 1))
      ensures ok && old(lh) != [] ==>
        var img := Replica(old(cache.disk), 1);
        cache.trace == old(cache.trace)
            + Replicate(CommitWrites(l, img[l.start], Tx(old(lh), Contents(img, old(lh)))), 0)
    {
      hide CacheInv, DiskInv, UniqueTags, IsOrder, Cache.Traced, Replicate, CommitWrites, Contents, SameHome, LogEmpty,
           Replica, Distinct, PinsMatch, ValidTx;
      DegradedView();
      ok := Commit();
      if ok {
        DegradedView();
      }
    }

    // ---- operations ----

    // The state of LogReservation that the layer is in: every outstanding operation has logged at
    // most MAXOPBLOCKS different blocks, and the log has room for what they may still add.
    ghost predicate Reserving()
      reads this, cache
    {
      && Operating() && LogReservation.Reserved(ops) && ops.lh == Elems(lh) && |ops.ops| == outstanding
      && !ops.committing && !ops.panicked
    }

    // begin_op.  The result false is the case in which the caller sleeps.
    method BeginOp() returns (ok: bool)
      requires Reserving()
      modifies this`outstanding, this`ops
      ensures Reserving() && ops == LogReservation.Next(l.size, old(ops), LogReservation.Begin)
      ensures ok <==> |lh| + (old(outstanding) + 1) * MAXOPBLOCKS <= LOGSIZE
      ensures outstanding == if ok then old(outstanding) + 1 else old(outstanding)
    {
      hide CacheInv, DiskInv, UniqueTags, IsOrder, Cache.Traced, PinsMatch, LogReservation.Reserved;
      DistinctSize(lh);
      LogReservation.ReservedStep(l.size, ops, LogReservation.Begin);
      ops := LogReservation.Next(l.size, ops, LogReservation.Begin);
      if |lh| + (outstanding + 1) * MAXOPBLOCKS > LOGSIZE {
        return false;
      }
      outstanding := outstanding + 1;
      return true;
    }

    // log_write by outstanding operation op, which keeps to MAXOPBLOCKS different blocks.
    method LogWriteBy(ghost op: nat, i: nat) returns (ok: bool)
      requires Reserving() && op < outstanding && i < NBUF && cache.bufs[i].locked
      requires l.IsHome(cache.bufs[i].blockno) && cache.bufs[i].blockno !in short
      requires !LogReservation.Overspends(ops, LogReservation.LogWrite(op, cache.bufs[i].blockno))
      modifies this`view, this`lh, this`ops, cache`bufs
      ensures ops == LogReservation.Next(l.size, old(ops), LogReservation.LogWrite(op, old(cache.bufs)[i].blockno))
      ensures ok <==> !ops.panicked
      ensures ok ==>
        var b := old(cache.bufs)[i].blockno;
        && Reserving() && |lh| <= LOGSIZE && lh == (if b in old(lh) then old(lh) else old(lh) + [b])
        && view.logical == (if view.degraded then old(view).logical
                            else old(view).logical[b := old(cache.bufs)[i].data])
        && cache.bufs[i].locked && cache.bufs[i].data == old(cache.bufs)[i].data
    {
      hide CacheInv, DiskInv, UniqueTags, IsOrder, Cache.Traced, PinsMatch, LogReservation.Reserved;
      ghost var lh0, b := lh, cache.bufs[i].blockno;
      DistinctSize(lh);
      LogReservation.ReservedStep(l.size, ops, LogReservation.LogWrite(op, b));
      ok := LogWrite(i);
      ops := LogReservation.Next(l.size, ops, LogReservation.LogWrite(op, b));
      assert Elems(if b in lh0 then lh0 else lh0 + [b]) == Elems(lh0) + {b};
    }

    // end_op of outstanding operation op: the last one commits.  The result false is the panic of
    // bget inside the commit.
    method EndOp(ghost op: nat) returns (ok: bool)
      requires Reserving() && op < outstanding && (outstanding == 1 ==> Quiet())
      modifies this`view, this`lh, this`outstanding, this`ops, cache`bufs, cache`lru, cache`uses, cache`disk,
        cache`trace
      ensures outstanding == old(outstanding) - 1
      ensures ok <==> outstanding > 0 || old(lh) == [] || |old(lh)| + |short| < NBUF
      ensures ok ==>
        && Reserving() && SameHome(l, old(view).logical, view.logical)
        && var ended := LogReservation.Next(l.size, old(ops), LogReservation.End(op));
        if outstanding > 0 then ops == ended && lh == old(lh) && view == old(view) && cache.trace == old(cache.trace)
        else ops == LogReservation.Next(l.size, ended, LogReservation.CommitDone) && lh == []
      ensures ok && outstanding == 0 && old(lh) != [] ==>
        cache.trace == old(cache.trace)
          + Replicate(CommitWrites(l, old(view).logical[l.start], Tx(old(lh), Contents(old(view).logical, old(lh)))),
                      cache.failDisk)
    {
      hide CacheInv, DiskInv, UniqueTags, IsOrder, Cache.Traced, PinsMatch, LogReservation.Reserved, Replicate,
           CommitWrites, Contents, SameHome, LogEmpty, Distinct, ValidTx;
      SameHomeIf(l, view.logical, view.logical);
      ghost var ended := LogReservation.Next(l.size, ops, LogReservation.End(op));
      LogReservation.ReservedStep(l.size, ops, LogReservation.End(op));
      LogReservation.ReservedStep(l.size, ended, LogReservation.CommitDone);
      outstanding := outstanding - 1;
      ops := ended;
      if outstanding > 0 {
        return true;
      }
      ok := Commit();
      ops := LogReservation.Next(l.size, ended, LogReservation.CommitDone);
    }

    // read_head
    method ReadHead()
      requires Inv() && Quiet() && LogReadable(l, view.logical)
      requires UniformPins(view, [], true, {})
      modifies this`lh, this`view, cache`bufs, cache`lru, cache`uses
      ensures Inv() && Quiet() && view == old(view) && lh == Header(view.logical[l.start])
    {
      hide CacheInv, DiskInv, UniqueTags, IsOrder, Cache.Traced, Header;
      FetchReady(0, l.start);
      SomeFree(view, cache.bufs, {});
      var r := Fetch(l.start);
      var b := cache.bufs[r.value].data;
      lh := LoadHeader(b);
      Release(r.value);
    }

    // The loop of read_head.
    static method LoadHeader(b: Block) returns (bs: seq<nat>)
      requires HeaderOk(b)
      ensures bs == Header(b)
    {
      bs := [];
      var n := Word(b, 0);
      while |bs| < n
        invariant |bs| <= n
        invariant bs == Header(b)[..|bs|]
      {
        bs := bs + [Word(b, 1 + |bs|)];
      }
    }

    // recover_from_log at boot: the writes of RecoveryWrites, in that order, to the
    // disks that are up.  Each installed block is left with one reference too few.
    method RecoverFromLog()
      requires Inv() && Quiet() && view.unsynced == {} && UniformPins(view, [], true, {}) && short == {}
      requires LogReadable(l, view.logical)
      requires var bs := Header(view.logical[l.start]); Distinct(bs) && |bs| < NBUF
      modifies this`view, this`lh, this`short, cache`bufs, cache`lru, cache`uses, cache`disk, cache`trace
      ensures Operating() && Quiet() && lh == [] && LogEmpty(l, view.logical)
      ensures outstanding == 0 && ops == LogReservation.INIT ==> Reserving()
      ensures var bs, ws := Header(old(view).logical[l.start]), RecoveryWrites(l, old(view).logical);
        && cache.trace == old(cache.trace) + Replicate(ws, cache.failDisk)
        && view.logical == Apply(old(view).logical, ws)
        && (forall b: nat :: b < LOGICAL_DISK_SIZE ==> view.pins[b] == if b in bs then -1 else 0)
        && forall b :: b in short <==> b in bs
    {
      hide CacheInv, DiskInv, UniqueTags, IsOrder, Cache.Traced, SetHeader, Header, PinsMatch, PinsWithin,
           UniformPins, Elems, Apply, Replicate, BwriteWrites, InstallWrites, RecoveryWrites, LogData, Installed,
               Headed, LogEmpty, LogReadable;
      ReadableLog(l, view.logical);
      ghost var v0, t0, bs := view, cache.trace, Header(view.logical[l.start]);
      RecoveryLaw(v0, l, bs);
      RecoveryTraceLaw(v0, l, cache.failDisk);
      ReadHead();
      InstallTrans(true);
      ghost var t1 := cache.trace;
      lh, short := [], Elems(bs);
      WriteHead(Elems(bs));
      Appended(t0, t1[|t0|..], cache.trace[|t1|..], [], []);
      InElems(bs);
      InElems([]);
    }

    lemma Overpinned(b: nat)
      requires Inv() && Quiet() && b < LOGICAL_DISK_SIZE && view.pins[b] == -1
      ensures cache.DeviceRead(b) == view.logical[b] && IsCached(cache.bufs, ROOTDEV, b)
      ensures forall j: nat :: j < NBUF && Tagged(cache.bufs[j], ROOTDEV, b) ==> cache.bufs[j].refcnt == UINT_LIMIT - 1
    {
      hide IsOrder, UniqueTags, Cache.Traced;
      assert forall j: nat :: j < NBUF && Tagged(cache.bufs[j], ROOTDEV, b) ==> BufInv(view, j, cache.bufs[j]);
    }

    // What the missing reference costs.  After recovery installed block b, an update of b
    // in the usual order (bread, memmove, log_write's bpin, brelse) leaves the only copy
    // of the new contents in a buffer with reference count 0, which bget may recycle.
    method RecoveredBlockUnpinned(b: nat, data: Block) returns (i: nat)
      requires Inv() && Quiet() && b < LOGICAL_DISK_SIZE && view.pins[b] == -1
      modifies cache`bufs, cache`lru, cache`uses
      ensures cache.Valid() && i < NBUF && Tagged(cache.bufs[i], ROOTDEV, b) && cache.bufs[i].data == data
      ensures cache.bufs[i].refcnt == 0 && AllUnlocked(cache.bufs)
      ensures cache.DeviceRead(b) == view.logical[b] && Tagged(old(cache.bufs)[i], ROOTDEV, b)
      ensures cache.bufs == old(cache.bufs)[i := cache.bufs[i]]
    {
      hide CacheInv, DiskInv, IsOrder, UniqueTags, BufInv, Cache.Traced, LeastRecentUnused;
      FetchReady(0, b);
      Overpinned(b);
      var r := cache.Bread(b);
      i := r.value;
      cache.SetData(i, data);
      cache.Bpin(i);
      cache.Brelse(i);
    }

    // So the update is lost: once enough other blocks have been read, bread of b gives the
    // contents from before it.
    method UpdateLost(b: nat, data: Block, others: seq<nat>) returns (j: nat)
      requires Inv() && Quiet() && b < LOGICAL_DISK_SIZE && view.pins[b] == -1
      requires |others| == NBUF && (forall t :: 0 <= t < NBUF ==> others[t] < LOGICAL_DISK_SIZE)
      requires forall t :: 0 <= t < NBUF ==> !IsCached(cache.bufs, ROOTDEV, others[t])
      requires forall t, u :: 0 <= t < u < NBUF ==> others[t] != others[u]
      modifies cache`bufs, cache`lru, cache`uses
      ensures cache.Valid() && j < NBUF && Tagged(cache.bufs[j], ROOTDEV, b) && cache.bufs[j].locked
        && cache.bufs[j].valid
      ensures cache.bufs[j].data == view.logical[b]
    {
      hide CacheInv, DiskInv, IsOrder, UniqueTags, BufInv, Cache.Traced, LeastRecentUnused;
      ghost var bufs0 := cache.bufs;
      var i := RecoveredBlockUnpinned(b, data);
      forall t | 0 <= t < NBUF ensures !IsCached(cache.bufs, ROOTDEV, others[t]) {
        SameTags(bufs0, cache.bufs, i, others[t]);
      }
      cache.Evict(b, i, others);
      ghost var bufs1 := cache.bufs;
      cache.Brelse(i);
      SameTags(bufs1, cache.bufs, i, b);
      var r := cache.Bread(b);
      j := r.value;
    }
  }

  lemma SameTags(bufs: seq<Buf>, bufs': seq<Buf>, i: nat, b: nat)
    requires i < |bufs| == |bufs'| && bufs' == bufs[i := bufs'[i]] && bufs'[i].dev == bufs[i].dev
      && bufs'[i].blockno == bufs[i].blockno
    ensures IsCached(bufs', ROOTDEV, b) ==> IsCached(bufs, ROOTDEV, b)
  {
    if IsCached(bufs', ROOTDEV, b) {
      var k :| 0 <= k < |bufs'| && Tagged(bufs'[k], ROOTDEV, b);
      assert Tagged(bufs[k], ROOTDEV, b);
    }
  }
}
