// The buffer cache of kernel/bio.c: NBUF buffers, an LRU order, reference counts that
// pin a buffer, and reads and writes mirrored over two disks.
module BufferCache {
  import opened Blocks
  import opened MirroredDisk
  import opened Wrappers

  // struct buf; locked is its sleep-lock.
  datatype Buf = Buf(valid: bool, dev: nat, blockno: nat, locked: bool, refcnt: uint, data: Block)

  // refcnt is a uint and wraps.
  function Wrap(n: int): (r: uint) {
    n % UINT_LIMIT
  }

  predicate Tagged(b: Buf, dev: nat, blockno: nat) {
    b.dev == dev && b.blockno == blockno
  }

  // A block is cached at most once; device 0 marks a buffer never used.
  ghost predicate UniqueTags(bufs: seq<Buf>) {
    forall i, j :: 0 <= i < j < |bufs| && bufs[i].dev == bufs[j].dev && bufs[i].dev != 0 ==>
      bufs[i].blockno != bufs[j].blockno
  }

  ghost predicate IsCached(bufs: seq<Buf>, dev: nat, blockno: nat) {
    exists i :: 0 <= i < |bufs| && Tagged(bufs[i], dev, blockno)
  }

  ghost predicate NoneFree(bufs: seq<Buf>) {
    forall i :: 0 <= i < |bufs| ==> bufs[i].refcnt != 0
  }

  // In a history of last releases, oldest first, j has been released since i last was.
  ghost predicate UsedSince(uses: seq<nat>, i: nat, j: nat) {
    exists k :: 0 <= k < |uses| && uses[k] == j && forall m :: k <= m < |uses| ==> uses[m] != i
  }

  // A permutation of the buffer numbers, most recently used first.
  ghost predicate IsOrder(lru: seq<nat>, uses: seq<nat>) {
    && |lru| == NBUF
    && (forall p :: 0 <= p < |lru| ==> lru[p] < NBUF)
    && (forall p, q :: 0 <= p < q < |lru| ==> lru[p] != lru[q] && UsedSince(uses, lru[q], lru[p]))
    && (forall i: nat :: i < NBUF ==> i in lru)
  }

  // i is unused, and every other unused buffer has been released since i last was.
  ghost predicate LeastRecentUnused(bufs: seq<Buf>, uses: seq<nat>, i: nat) {
    && i < |bufs| && bufs[i].refcnt == 0
    && forall j: nat :: j < |bufs| && j != i && bufs[j].refcnt == 0 ==> UsedSince(uses, i, j)
  }

  function MoveToFront(lru: seq<nat>, p: nat): (r: seq<nat>)
    requires p < |lru|
  {
    [lru[p]] + lru[..p] + lru[p + 1..]
  }

  // Where element k of the order goes, and where it was.
  function Moved(p: nat, k: nat): nat {
    if k == p then 0 else if k < p then k + 1 else k
  }

  function Origin(p: nat, k: nat): nat {
    if k == 0 then p else if k <= p then k - 1 else k
  }

  lemma MovedAt(lru: seq<nat>, p: nat, k: nat)
    requires p < |lru| && k < |lru|
    ensures |MoveToFront(lru, p)| == |lru|
    ensures Moved(p, k) < |lru| && MoveToFront(lru, p)[Moved(p, k)] == lru[k]
    ensures Origin(p, k) < |lru| && MoveToFront(lru, p)[k] == lru[Origin(p, k)]
  {
  }

  lemma MoveToFrontOrder(lru: seq<nat>, uses: seq<nat>, p: nat)
    requires IsOrder(lru, uses) && p < |lru|
    ensures IsOrder(MoveToFront(lru, p), uses + [lru[p]])
  {
    hide MoveToFront, UsedSince;
    MovedAt(lru, p, p);
    var r := MoveToFront(lru, p);
    forall i: nat | i < NBUF ensures i in r {
      assert i in lru;
      var k: nat :| k < |lru| && lru[k] == i;
      MovedAt(lru, p, k);
    }
    forall k: nat | k < |r| ensures r[k] < NBUF {
      MovedAt(lru, p, k);
    }
    forall a: nat, b: nat | a < b < |r| ensures r[a] != r[b] && UsedSince(uses + [lru[p]], r[b], r[a]) {
      MovedAt(lru, p, a);
      MovedAt(lru, p, b);
      assert r[a] == lru[Origin(p, a)] && r[b] == lru[Origin(p, b)] && Origin(p, b) != p;
      if a == 0 {
        JustUsed(uses, r[b], lru[p]);
      } else {
        UsedLater(uses, r[b], r[a], lru[p]);
      }
    }
  }

  lemma JustUsed(uses: seq<nat>, i: nat, x: nat)
    requires i != x
    ensures UsedSince(uses + [x], i, x)
  {
    assert (uses + [x])[|uses|] == x;
  }

  lemma UsedLater(uses: seq<nat>, i: nat, j: nat, x: nat)
    requires UsedSince(uses, i, j) && i != x
    ensures UsedSince(uses + [x], i, j)
  {
    var k :| 0 <= k < |uses| && uses[k] == j && forall m :: k <= m < |uses| ==> uses[m] != i;
    assert (uses + [x])[k] == j;
  }

  // binit puts the buffers at the front one after the other.
  lemma BootOrder(lru: seq<nat>, uses: seq<nat>)
    requires |lru| == |uses| == NBUF
    requires forall p :: 0 <= p < NBUF ==> lru[p] == NBUF - 1 - p && uses[p] == p
    ensures IsOrder(lru, uses)
  {
    forall i: nat | i < NBUF ensures i in lru {
      assert lru[NBUF - 1 - i] == i;
    }
    forall p, q | 0 <= p < q < NBUF ensures UsedSince(uses, lru[q], lru[p]) {
      assert uses[NBUF - 1 - p] == lru[p];
    }
  }

  // a comes before b in the order.
  ghost predicate Before(lru: seq<nat>, a: nat, b: nat) {
    exists p, q :: 0 <= p < q < |lru| && lru[p] == a && lru[q] == b
  }

  // Moving one buffer to the front leaves the others in the order they had.
  lemma FrontKeepsRest(lru: seq<nat>, p: nat, a: nat, b: nat)
    requires p < |lru| && a != lru[p] && b != lru[p]
    ensures Before(MoveToFront(lru, p), a, b) <==> Before(lru, a, b)
  {
    hide MoveToFront;
    MovedAt(lru, p, p);
    var r := MoveToFront(lru, p);
    if Before(lru, a, b) {
      var x: nat, y: nat :| x < y < |lru| && lru[x] == a && lru[y] == b;
      MovedAt(lru, p, x);
      MovedAt(lru, p, y);
      assert r[Moved(p, x)] == a && r[Moved(p, y)] == b;
    }
    if Before(r, a, b) {
      var x: nat, y: nat :| x < y < |r| && r[x] == a && r[y] == b;
      MovedAt(lru, p, x);
      MovedAt(lru, p, y);
      assert lru[Origin(p, x)] == a && lru[Origin(p, y)] == b;
    }
  }

  lemma StillUncached(bufs: seq<Buf>, bufs': seq<Buf>, j: nat, others: seq<nat>, t: nat)
    requires j < |bufs| == |bufs'| && bufs' == bufs[j := bufs'[j]] && t < |others|
      && Tagged(bufs'[j], ROOTDEV, others[t])
    requires forall u :: t <= u < |others| ==> !IsCached(bufs, ROOTDEV, others[u])
    requires forall u :: t < u < |others| ==> others[t] != others[u]
    ensures forall u :: t < u < |others| ==> !IsCached(bufs', ROOTDEV, others[u])
  {
    forall u, k | t < u < |others| && 0 <= k < |bufs'| ensures !Tagged(bufs'[k], ROOTDEV, others[u]) {
      assert !Tagged(bufs[k], ROOTDEV, others[u]);
    }
  }

  lemma {:induction false} SubsetSize(a: set<nat>, b: set<nat>)
    requires a <= b
    ensures |a| <= |b|
    decreases |a|
  {
    if a != {} {
      var x :| x in a;
      SubsetSize(a - {x}, b - {x});
    }
  }

  // A set of buffers that leaves one out has fewer than NBUF.
  lemma SomeLeft(taken: set<nat>, i: nat)
    requires i < NBUF && i !in taken && forall k :: k in taken ==> k < NBUF
    ensures |taken| < NBUF
  {
    SubsetSize(taken, Numbers(NBUF) - {i});
  }

  function Numbers(n: nat): (r: set<nat>)
    ensures |r| == n && forall k: nat :: k in r <==> k < n
  {
    if n == 0 then {} else Numbers(n - 1) + {n - 1}
  }

  lemma {:induction false} ElementsAtMost(s: seq<nat>, a: set<nat>)
    requires forall x :: x in a ==> x in s
    ensures |a| <= |s|
    decreases |s|
  {
    if s == [] {
      assert a == {};
    } else {
      ElementsAtMost(s[1..], a - {s[0]});
      SubsetSize(a, (a - {s[0]}) + {s[0]});
    }
  }

  // A buffer that at most NBUF - 2 releases have followed is not the least recently used of all.
  lemma NotYetOldest(bufs: seq<Buf>, before: seq<nat>, i: nat, since: seq<nat>)
    requires |bufs| == NBUF && i < NBUF && |since| < NBUF - 1
    requires forall k :: 0 <= k < NBUF ==> bufs[k].refcnt == 0
    ensures !LeastRecentUnused(bufs, before + [i] + since, i)
  {
    var uses := before + [i] + since;
    if LeastRecentUnused(bufs, uses, i) {
      forall j | j in Numbers(NBUF) - {i} ensures j in since {
        assert UsedSince(uses, i, j);
        var k :| 0 <= k < |uses| && uses[k] == j && forall m :: k <= m < |uses| ==> uses[m] != i;
        assert uses[|before|] == i && uses[k] == since[k - |before| - 1];
      }
      ElementsAtMost(since, Numbers(NBUF) - {i});
    }
  }

  class Cache {
    var bufs: seq<Buf>
    var lru: seq<nat>
    ghost var uses: seq<nat>          // the buffers in the order of their last releases
    var disk: seq<Block>              // the device, FSSIZE physical blocks
    var failDisk: int                 // force_disk_fail_id
    var failPbn: int                  // force_read_error_pbn
    ghost const device0: seq<Block>   // the device at boot
    ghost var trace: seq<Write>       // every physical write since

    ghost predicate Valid()
      reads this
    {
      |bufs| == NBUF && |disk| == FSSIZE && IsOrder(lru, uses) && UniqueTags(bufs) && Traced()
    }

    // The device is what the recorded writes have made of it.
    ghost predicate Traced()
      reads this
    {
      disk == Apply(device0, trace)
    }

    predicate Fallback(b: nat)
      reads this
    {
      failDisk == 0 || failPbn == b
    }

    // What the device answers for logical block b.
    function DeviceRead(b: nat): Block
      requires |disk| == FSSIZE && b < LOGICAL_DISK_SIZE
      reads this
    {
      if Fallback(b) then disk[b + DISK1_START_BLOCK] else disk[b]
    }

    // acquiresleep in bget would not have to wait.
    ghost predicate Unlocked(dev: nat, blockno: nat)
      reads this
    {
      forall i :: 0 <= i < |bufs| && (Tagged(bufs[i], dev, blockno) || bufs[i].refcnt == 0) ==>
        !bufs[i].locked
    }

    // binit at boot: every buffer unused.
    constructor (device: seq<Block>, failDisk: int, failPbn: int)
      requires |device| == FSSIZE
      ensures Valid() && disk == device && device0 == device && trace == []
      ensures this.failDisk == failDisk && this.failPbn == failPbn
      ensures forall i :: 0 <= i < NBUF ==> bufs[i] == Buf(false, 0, 0, false, 0, ZERO_BLOCK)
    {
      bufs := seq(NBUF, _ => Buf(false, 0, 0, false, 0, ZERO_BLOCK));
      disk, this.failDisk, this.failPbn, device0, trace := device, failDisk, failPbn, device, [];
      var order: seq<nat> := [];
      for n := 0 to NBUF
        invariant |order| == n
        invariant forall p :: 0 <= p < n ==> order[p] == n - 1 - p
      {
        order := [n] + order;
      }
      lru, uses := order, seq(NBUF, i => i);
      BootOrder(order, seq(NBUF, i => i));
    }

    // sys_force_disk_fail: disk 0, disk 1 or no disk (-1) is down from now on.
    method ForceDiskFail(id: int) returns (ok: bool)
      requires Valid()
      modifies this`failDisk
      ensures Valid() && (ok <==> -1 <= id <= 1)
      ensures failDisk == if ok then id else old(failDisk)
    {
      if id < -1 || id > 1 {
        return false;
      }
      failDisk := id;
      return true;
    }

    // Look up a block; on a miss recycle the least recently used unused buffer.
    // None is the panic "bget: no buffers".
    method Bget(dev: nat, blockno: nat) returns (r: Option<nat>)
      requires Valid() && dev != 0 && Unlocked(dev, blockno)
      modifies this`bufs
      ensures Valid()
      ensures r.None? ==> !IsCached(bufs, dev, blockno) && NoneFree(bufs) && bufs == old(bufs)
      ensures r.Some? ==>
        var i := r.value;
        && i < NBUF
        && (Tagged(old(bufs)[i], dev, blockno) ==>
              bufs == old(bufs)[i := old(bufs)[i].(locked := true, refcnt := Wrap(old(bufs)[i].refcnt + 1))])
        && (!Tagged(old(bufs)[i], dev, blockno) ==>
              && !IsCached(old(bufs), dev, blockno) && LeastRecentUnused(old(bufs), uses, i)
              && bufs == old(bufs)[i := Buf(false, dev, blockno, true, 1, old(bufs)[i].data)])
    {
      var p := 0;
      while p < |lru|
        invariant 0 <= p <= |lru|
        invariant forall q :: 0 <= q < p ==> !Tagged(bufs[lru[q]], dev, blockno)
      {
        var i := lru[p];
        if Tagged(bufs[i], dev, blockno) {
          bufs := bufs[i := bufs[i].(locked := true, refcnt := Wrap(bufs[i].refcnt + 1))];
          return Some(i);
        }
        p := p + 1;
      }
      forall i: nat | i < NBUF ensures !Tagged(bufs[i], dev, blockno) {
        assert i in lru;
      }
      p := |lru|;
      while p > 0
        invariant 0 <= p <= |lru|
        invariant forall q :: p <= q < |lru| ==> bufs[lru[q]].refcnt != 0
      {
        p := p - 1;
        var i := lru[p];
        if bufs[i].refcnt == 0 {
          forall j: nat | j < NBUF && j != i && bufs[j].refcnt == 0 ensures UsedSince(uses, i, j) {
            assert j in lru;
          }
          bufs := bufs[i := Buf(false, dev, blockno, true, 1, bufs[i].data)];
          return Some(i);
        }
      }
      forall i: nat | i < NBUF ensures bufs[i].refcnt != 0 {
        assert i in lru;
      }
      return None;
    }

    // Return a locked buffer with the block's contents.  A valid buffer is used as it
    // is, unless disk 0 (or the block on it) has failed: then disk 1 is read again.
    method Bread(blockno: nat) returns (r: Option<nat>)
      requires Valid() && blockno < LOGICAL_DISK_SIZE && Unlocked(ROOTDEV, blockno)
      modifies this`bufs
      ensures Valid()
      ensures r.None? ==> !IsCached(bufs, ROOTDEV, blockno) && NoneFree(bufs) && bufs == old(bufs)
      ensures r.Some? ==>
        var i := r.value;
        && i < NBUF && bufs == old(bufs)[i := bufs[i]]
        && Tagged(bufs[i], ROOTDEV, blockno) && bufs[i].valid && bufs[i].locked
        && (Tagged(old(bufs)[i], ROOTDEV, blockno) ==>
              && bufs[i].refcnt == Wrap(old(bufs)[i].refcnt + 1)
              && bufs[i].data == if old(bufs)[i].valid && !Fallback(blockno) then old(bufs)[i].data
                                 else DeviceRead(blockno))
        && (!Tagged(old(bufs)[i], ROOTDEV, blockno) ==>
              && !IsCached(old(bufs), ROOTDEV, blockno) && LeastRecentUnused(old(bufs), uses, i)
              && bufs[i].refcnt == 1 && bufs[i].data == DeviceRead(blockno))
    {
      r := Bget(ROOTDEV, blockno);
      if r.None? {
        return;
      }
      var i := r.value;
      var pbn0 := blockno;
      var pbn1 := pbn0 + DISK1_START_BLOCK;
      var useFallback := failDisk == 0 || failPbn == pbn0;
      if !bufs[i].valid || useFallback {
        // virtio_disk_rw(b, 0) with b->blockno set to the physical block
        bufs := bufs[i := bufs[i].(valid := true, data := disk[if useFallback then pbn1 else pbn0])];
      }
    }

    // virtio_disk_rw(b, 1) with b->blockno set to pbn: one physical write.
    method VirtioWrite(pbn: nat, data: Block)
      requires pbn < |disk| && Traced()
      modifies this`disk, this`trace
      ensures Traced()
      ensures disk == ApplyOne(old(disk), Write(pbn, data))
      ensures trace == old(trace) + [Write(pbn, data)]
    {
      ApplyAppend(device0, trace, Write(pbn, data));
      disk := disk[pbn := data];
      trace := trace + [Write(pbn, data)];
    }

    // Write a locked buffer to both disks, skipping the failed one.
    method Bwrite(i: nat)
      requires Valid() && i < NBUF && bufs[i].locked && bufs[i].blockno < LOGICAL_DISK_SIZE
      modifies this`disk, this`trace
      ensures Valid()
      ensures var ws := BwriteWrites(bufs[i].blockno, bufs[i].data, failDisk, failPbn);
        disk == Apply(old(disk), ws) && trace == old(trace) + ws
    {
      hide Apply, ApplyOne, IsOrder, UniqueTags, Traced;
      var pbn0 := bufs[i].blockno;
      var pbn1 := pbn0 + DISK1_START_BLOCK;
      var data := bufs[i].data;
      ApplyOneSize(disk, Write(pbn0, data));
      ApplyOneSize(disk, Write(pbn1, data));
      ApplyOneSize(ApplyOne(disk, Write(pbn0, data)), Write(pbn1, data));
      ApplyIdentity(disk, []);
      ghost var up0, up1 := failDisk != 0 && failPbn != pbn0, failDisk != 1;
      assert BwriteWrites(pbn0, data, failDisk, failPbn)
          == if up0 && up1 then [Write(pbn0, data), Write(pbn1, data)] else if up0 then [Write(pbn0, data)]
             else if up1 then [Write(pbn1, data)] else [];
      ApplyShort(disk, Write(pbn0, data), Write(pbn1, data));
      ApplyShort(disk, Write(pbn1, data), Write(pbn1, data));
      if failDisk != 0 && failPbn != pbn0 {
        VirtioWrite(pbn0, data);
      }
      if failDisk != 1 {
        VirtioWrite(pbn1, data);
      }
    }

    // Unlock, drop the reference, and if it was the last one move the buffer to the
    // front of the order.
    method Brelse(i: nat)
      requires Valid() && i < NBUF && bufs[i].locked
      modifies this`bufs, this`lru, this`uses
      ensures Valid()
      ensures bufs == old(bufs)[i := old(bufs)[i].(locked := false, refcnt := Wrap(old(bufs)[i].refcnt - 1))]
      ensures bufs[i].refcnt != 0 ==> lru == old(lru) && uses == old(uses)
      ensures bufs[i].refcnt == 0 ==>
        && lru[0] == i && uses == old(uses) + [i]
        && forall a: nat, b: nat :: a != i && b != i ==> (Before(lru, a, b) <==> Before(old(lru), a, b))
    {
      bufs := bufs[i := bufs[i].(locked := false, refcnt := Wrap(bufs[i].refcnt - 1))];
      if bufs[i].refcnt == 0 {
        assert i in lru;
        var p := 0;
        while lru[p] != i
          invariant 0 <= p < |lru|
          invariant i !in lru[..p]
          decreases |lru| - p
        {
          assert i in lru[p + 1..];
          p := p + 1;
        }
        MoveToFrontOrder(lru, uses, p);
        forall a: nat, b: nat | a != i && b != i ensures Before(MoveToFront(lru, p), a, b) <==> Before(lru, a, b) {
          FrontKeepsRest(lru, p, a, b);
        }
        lru, uses := MoveToFront(lru, p), uses + [i];
      }
    }

    method Bpin(i: nat)
      requires Valid() && i < NBUF
      modifies this`bufs
      ensures Valid() && bufs == old(bufs)[i := old(bufs)[i].(refcnt := Wrap(old(bufs)[i].refcnt + 1))]
    {
      bufs := bufs[i := bufs[i].(refcnt := Wrap(bufs[i].refcnt + 1))];
    }

    method Bunpin(i: nat)
      requires Valid() && i < NBUF
      modifies this`bufs
      ensures Valid() && bufs == old(bufs)[i := old(bufs)[i].(refcnt := Wrap(old(bufs)[i].refcnt - 1))]
    {
      bufs := bufs[i := bufs[i].(refcnt := Wrap(bufs[i].refcnt - 1))];
    }

    // Reading other blocks and holding on to them takes an unreferenced buffer in the end,
    // whatever it holds.
    method Evict(b: nat, i: nat, others: seq<nat>)
      requires Valid() && i < NBUF && Tagged(bufs[i], ROOTDEV, b) && bufs[i].refcnt == 0
      requires forall k :: 0 <= k < NBUF ==> !bufs[k].locked
      requires |others| == NBUF && (forall t :: 0 <= t < NBUF ==> others[t] < LOGICAL_DISK_SIZE)
      requires forall t :: 0 <= t < NBUF ==> !IsCached(bufs, ROOTDEV, others[t])
      requires forall t, u :: 0 <= t < u < NBUF ==> others[t] != others[u]
      modifies this`bufs
      ensures Valid() && !IsCached(bufs, ROOTDEV, b) && bufs[i].locked && bufs[i].refcnt == 1
      ensures forall k :: 0 <= k < NBUF && bufs[k].locked ==> bufs[k].refcnt != 0
    {
      hide IsOrder, Traced;
      ghost var taken: set<nat> := {};
      var t := 0;
      while !bufs[i].locked
        invariant Valid() && t <= NBUF && |taken| == t && (forall k :: k in taken ==> k < NBUF)
        invariant if bufs[i].locked then !IsCached(bufs, ROOTDEV, b) && bufs[i].refcnt == 1
                  else i !in taken && Tagged(bufs[i], ROOTDEV, b) && bufs[i].refcnt == 0
        invariant forall k :: 0 <= k < NBUF && bufs[k].locked ==> k in taken
        invariant forall k :: 0 <= k < NBUF && k in taken ==> bufs[k].refcnt == 1
        invariant forall u :: t <= u < NBUF ==> !IsCached(bufs, ROOTDEV, others[u])
        decreases NBUF - t, if bufs[i].locked then 0 else 1
      {
        SomeLeft(taken, i);
        ghost var bufs0 := bufs;
        var r := Bread(others[t]);
        ghost var j := r.value;
        taken := taken + {j};
        StillUncached(bufs0, bufs, j, others, t);
        if j == i {
          assert forall k :: 0 <= k < NBUF && k != i ==> !Tagged(bufs0[k], ROOTDEV, b);
        }
        t := t + 1;
      }
    }

    // While no buffer is held, the block released last survives the next NBUF - 1 reads of any blocks.
    method StaysCached(i: nat, others: seq<nat>)
      requires Valid() && i < NBUF && |uses| > 0 && uses[|uses| - 1] == i
      requires forall k :: 0 <= k < NBUF ==> bufs[k].refcnt == 0 && !bufs[k].locked
      requires |others| < NBUF && forall t :: 0 <= t < |others| ==> others[t] < LOGICAL_DISK_SIZE
      modifies this`bufs, this`lru, this`uses
      ensures Valid() && Tagged(bufs[i], old(bufs[i].dev), old(bufs[i].blockno)) && bufs[i].refcnt == 0
    {
      hide IsOrder, Traced, UniqueTags, LeastRecentUnused;
      ghost var before, since := uses[..|uses| - 1], [];
      var t := 0;
      while t < |others|
        invariant Valid() && t <= |others| && |since| <= t && uses == before + [i] + since
        invariant forall k :: 0 <= k < NBUF ==> bufs[k].refcnt == 0 && !bufs[k].locked
        invariant Tagged(bufs[i], old(bufs[i].dev), old(bufs[i].blockno))
      {
        NotYetOldest(bufs, before, i, since);
        var r := Bread(others[t]);
        assert r.Some?;
        ghost var uses0 := uses;
        Brelse(r.value);
        if r.value == i {
          before, since := uses0, [];
        } else {
          since := since + [r.value];
        }
        t := t + 1;
      }
    }

    // The holder of a buffer replaces its contents (memmove into b->data).
    method SetData(i: nat, data: Block)
      requires Valid() && i < NBUF && bufs[i].locked
      modifies this`bufs
      ensures Valid() && bufs == old(bufs)[i := old(bufs)[i].(data := data)]
    {
      bufs := bufs[i := bufs[i].(data := data)];
    }
  }
}
