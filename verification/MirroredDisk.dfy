// The RAID-1 block layer of kernel/bio.c seen from the device: a bwrite of logical
// block b becomes at most two physical block writes, one to b on disk 0 and one to
// b + DISK1_START_BLOCK on disk 1.  Physical writes are the atomic steps of the model;
// a crash may fall between any two of them.
module MirroredDisk {
  import opened Blocks

  datatype Write = Write(pbn: nat, data: Block)

  // The device after one physical write; a block number past the end is refused.
  function ApplyOne(d: seq<Block>, w: Write): (r: seq<Block>)
    ensures |r| == |d|
  {
    if w.pbn < |d| then d[w.pbn := w.data] else d
  }

  function Apply(d: seq<Block>, ws: seq<Write>): (r: seq<Block>)
    ensures |r| == |d|
  {
    if ws == [] then d else ApplyOne(Apply(d, ws[..|ws| - 1]), ws[|ws| - 1])
  }

  predicate Touches(ws: seq<Write>, b: nat) {
    exists i :: 0 <= i < |ws| && ws[i].pbn == b
  }

  // Copy r (0 or 1) of the logical disk.
  function Replica(d: seq<Block>, r: nat): (img: seq<Block>)
    requires |d| == FSSIZE && r < 2
    ensures |img| == LOGICAL_DISK_SIZE
  {
    if r == 0 then d[..DISK1_START_BLOCK] else d[DISK1_START_BLOCK..]
  }

  // The physical writes of one bwrite, given the injected failures
  // force_disk_fail_id and force_read_error_pbn.
  function BwriteWrites(b: nat, data: Block, failDisk: int, failPbn: int): (ws: seq<Write>)
  {
    (if failDisk == 0 || failPbn == b then [] else [Write(b, data)]) +
    (if failDisk == 1 then [] else [Write(b + DISK1_START_BLOCK, data)])
  }

  // The physical writes of a series of bwrites, no single block being failed.
  function Replicate(ws: seq<Write>, failDisk: int): (r: seq<Write>)
  {
    if ws == [] then [] else
      var last := ws[|ws| - 1];
      Replicate(ws[..|ws| - 1], failDisk) + BwriteWrites(last.pbn, last.data, failDisk, -1)
  }

  // How many of the logical writes have reached replica r after k physical ones.
  function Reached(failDisk: int, r: nat, k: nat): (n: nat)
  {
    if failDisk == 0 then (if r == 0 then 0 else k)
    else if failDisk == 1 then (if r == 0 then k else 0)
    else if r == 0 then (k + 1) / 2
    else k / 2
  }

  lemma ApplyAppend(d: seq<Block>, ws: seq<Write>, w: Write)
    ensures Apply(d, ws + [w]) == ApplyOne(Apply(d, ws), w)
  {
    assert (ws + [w])[..|ws|] == ws;
  }

  lemma {:induction false} ApplyConcat(d: seq<Block>, a: seq<Write>, b: seq<Write>)
    ensures Apply(d, a + b) == Apply(Apply(d, a), b)
    decreases |b|
  {
    if b == [] {
      assert a + b == a;
    } else {
      var n := |b| - 1;
      ApplyConcat(d, a, b[..n]);
      assert a + b == (a + b[..n]) + [b[n]];
      ApplyAppend(d, a + b[..n], b[n]);
    }
  }

  // Writing what is already there changes nothing.
  lemma {:induction false} ApplyIdentity(d: seq<Block>, ws: seq<Write>)
    requires forall i :: 0 <= i < |ws| ==> ws[i].pbn < |d| && ws[i].data == d[ws[i].pbn]
    ensures Apply(d, ws) == d
    decreases |ws|
  {
    if ws != [] {
      ApplyIdentity(d, ws[..|ws| - 1]);
      assert ws[|ws| - 1].data == d[ws[|ws| - 1].pbn];
    }
  }

  lemma {:induction false} ReplicateConcat(a: seq<Write>, b: seq<Write>, failDisk: int)
    ensures Replicate(a + b, failDisk) == Replicate(a, failDisk) + Replicate(b, failDisk)
    decreases |b|
  {
    if b == [] {
      assert a + b == a;
    } else {
      var n := |b| - 1;
      assert (a + b)[..|a + b| - 1] == a + b[..n];
      ReplicateConcat(a, b[..n], failDisk);
    }
  }

  lemma ReplicateNone(ws: seq<Write>, failDisk: int)
    ensures Replicate(ws[..0], failDisk) == []
  {
  }

  lemma ReplicateStep(ws: seq<Write>, k: nat, failDisk: int)
    requires k < |ws|
    ensures Replicate(ws[..k + 1], failDisk)
         == Replicate(ws[..k], failDisk) + BwriteWrites(ws[k].pbn, ws[k].data, failDisk, -1)
  {
    assert ws[..k + 1][..k] == ws[..k] && ws[..k + 1][k] == ws[k];
  }

  lemma ReplicateOne(w: Write, failDisk: int)
    ensures Replicate([w], failDisk) == BwriteWrites(w.pbn, w.data, failDisk, -1)
  {
    assert [w][..0] == [];
  }

  // A block no write names is unchanged.
  lemma {:induction false} ApplyFrame(d: seq<Block>, ws: seq<Write>, b: nat)
    requires b < |d| && !Touches(ws, b)
    ensures Apply(d, ws)[b] == d[b]
    decreases |ws|
  {
    if ws != [] {
      var n := |ws| - 1;
      assert ws[n].pbn != b;
      assert !Touches(ws[..n], b) by {
        forall i | 0 <= i < n ensures ws[..n][i].pbn != b { assert ws[i].pbn != b; }
      }
      ApplyFrame(d, ws[..n], b);
    }
  }

  // The contents of a block after the writes depend on the disk before only if no
  // write names the block.
  lemma {:induction false} ApplyAgrees(d: seq<Block>, e: seq<Block>, ws: seq<Write>, b: nat)
    requires |d| == |e| && b < |d|
    requires d[b] == e[b] || Touches(ws, b)
    ensures Apply(d, ws)[b] == Apply(e, ws)[b]
    decreases |ws|
  {
    if ws != [] {
      var n := |ws| - 1;
      if ws[n].pbn != b {
        if d[b] != e[b] {
          var i :| 0 <= i < |ws| && ws[i].pbn == b;
          assert ws[..n][i].pbn == b;
        }
        ApplyAgrees(d, e, ws[..n], b);
      }
    }
  }

  lemma ReplicateSize(ws: seq<Write>, failDisk: int)
    requires forall i :: 0 <= i < |ws| ==> ws[i].pbn < LOGICAL_DISK_SIZE
    ensures |Replicate(ws, failDisk)| == if failDisk == 0 || failDisk == 1 then |ws| else 2 * |ws|
    decreases |ws|
  {
    if ws != [] { ReplicateSize(ws[..|ws| - 1], failDisk); }
  }

  // A physical write changes one replica, as the logical write, and not the other.
  lemma ReplicaApplyOne(d: seq<Block>, b: nat, data: Block)
    requires |d| == FSSIZE && b < LOGICAL_DISK_SIZE
    ensures Replica(ApplyOne(d, Write(b, data)), 0) == ApplyOne(Replica(d, 0), Write(b, data))
    ensures Replica(ApplyOne(d, Write(b, data)), 1) == Replica(d, 1)
    ensures Replica(ApplyOne(d, Write(b + DISK1_START_BLOCK, data)), 0) == Replica(d, 0)
    ensures Replica(ApplyOne(d, Write(b + DISK1_START_BLOCK, data)), 1)
         == ApplyOne(Replica(d, 1), Write(b, data))
  {
  }

  lemma ApplyShort(d: seq<Block>, v: Write, w: Write)
    ensures Apply(d, [v]) == ApplyOne(d, v)
    ensures Apply(d, [v, w]) == ApplyOne(ApplyOne(d, v), w)
  {
    assert [v] == [] + [v] && [v, w] == [v] + [w];
    ApplyAppend(d, [], v);
    ApplyAppend(d, [v], w);
  }

  // The first m writes of a bwrite, and whether they reach replica r.
  lemma BwriteShape(w: Write, failDisk: int, m: nat)
    requires 0 < m <= |BwriteWrites(w.pbn, w.data, failDisk, -1)|
    ensures var w1 := Write(w.pbn + DISK1_START_BLOCK, w.data);
      BwriteWrites(w.pbn, w.data, failDisk, -1)[..m]
      == if failDisk == 0 then [w1] else if failDisk == 1 || m == 1 then [w] else [w, w1]
  {
  }

  lemma ReachedShape(w: Write, failDisk: int, m: nat, r: nat)
    requires r < 2 && 0 < m <= |BwriteWrites(w.pbn, w.data, failDisk, -1)|
    ensures Reached(failDisk, r, m) == if r == 0 then (if failDisk == 0 then 0 else 1)
                                       else if failDisk == 0 || (failDisk != 1 && m != 1) then 1 else 0
  {
  }

  lemma BwriteApplied(d: seq<Block>, w: Write, failDisk: int, m: nat)
    requires 0 < m <= |BwriteWrites(w.pbn, w.data, failDisk, -1)|
    ensures var w1 := Write(w.pbn + DISK1_START_BLOCK, w.data);
      Apply(d, BwriteWrites(w.pbn, w.data, failDisk, -1)[..m])
      == if failDisk == 0 then ApplyOne(d, w1) else if failDisk == 1 || m == 1 then ApplyOne(d, w)
         else ApplyOne(ApplyOne(d, w), w1)
  {
    hide Apply, ApplyOne, BwriteWrites;
    var w1 := Write(w.pbn + DISK1_START_BLOCK, w.data);
    BwriteShape(w, failDisk, m);
    ApplyShort(d, w, w1);
    ApplyShort(d, w1, w1);
  }

  // One interrupted bwrite, replica by replica.
  lemma BwritePrefix(d: seq<Block>, w: Write, failDisk: int, m: nat, r: nat)
    requires |d| == FSSIZE && r < 2 && w.pbn < LOGICAL_DISK_SIZE
    requires 0 < m <= |BwriteWrites(w.pbn, w.data, failDisk, -1)|
    ensures Replica(Apply(d, BwriteWrites(w.pbn, w.data, failDisk, -1)[..m]), r)
         == if Reached(failDisk, r, m) == 1 then ApplyOne(Replica(d, r), w) else Replica(d, r)
    ensures Reached(failDisk, r, m) <= 1
  {
    hide Apply, Replica, ApplyOne, BwriteWrites, Reached;
    assert |ApplyOne(d, w)| == FSSIZE by { ApplyOneSize(d, w); }
    BwriteApplied(d, w, failDisk, m);
    ReachedShape(w, failDisk, m, r);
    ReplicaApplyOne(d, w.pbn, w.data);
    ReplicaApplyOne(ApplyOne(d, w), w.pbn, w.data);
  }

  lemma ApplyOneSize(d: seq<Block>, w: Write)
    ensures |ApplyOne(d, w)| == |d|
  {
  }

  // Stopping the physical writes anywhere leaves each replica with a prefix of the
  // logical writes: replica 1 runs at most one behind replica 0.
  lemma {:induction false} ReplicaPrefix(d: seq<Block>, ws: seq<Write>, failDisk: int, k: nat, r: nat)
    requires |d| == FSSIZE && r < 2
    requires forall i :: 0 <= i < |ws| ==> ws[i].pbn < LOGICAL_DISK_SIZE
    requires k <= |Replicate(ws, failDisk)|
    ensures Reached(failDisk, r, k) <= |ws|
    ensures Replica(Apply(d, Replicate(ws, failDisk)[..k]), r)
         == Apply(Replica(d, r), ws[..Reached(failDisk, r, k)])
    decreases |ws|
  {
    hide Apply, Replica, Replicate, Reached, BwriteWrites;
    if ws == [] {
      NothingApplied(d, ws, failDisk, k, r);
      return;
    }
    var n := |ws| - 1;
    var init := ws[..n];
    var p := Replicate(init, failDisk);
    ReplicateLast(ws, failDisk);
    ReplicateSize(init, failDisk);
    if k <= |p| {
      ReplicaPrefix(d, init, failDisk, k, r);
      assert Replicate(ws, failDisk)[..k] == p[..k];
      assert ws[..Reached(failDisk, r, k)] == init[..Reached(failDisk, r, k)];
    } else {
      ReplicaPrefix(d, init, failDisk, |p|, r);
      assert p[..|p|] == p;
      ReplicaPrefixStep(d, ws, failDisk, k, r);
    }
  }

  lemma NothingApplied(d: seq<Block>, ws: seq<Write>, failDisk: int, k: nat, r: nat)
    requires |d| == FSSIZE && r < 2 && ws == [] && k <= |Replicate(ws, failDisk)|
    ensures Reached(failDisk, r, k) == 0
    ensures Replica(Apply(d, Replicate(ws, failDisk)[..k]), r) == Apply(Replica(d, r), ws[..0])
  {
  }

  lemma ReplicateLast(ws: seq<Write>, failDisk: int)
    requires ws != []
    ensures var n := |ws| - 1;
      Replicate(ws, failDisk) == Replicate(ws[..n], failDisk) + BwriteWrites(ws[n].pbn, ws[n].data, failDisk, -1)
  {
  }

  lemma ReplicaPrefixStep(d: seq<Block>, ws: seq<Write>, failDisk: int, k: nat, r: nat)
    requires |d| == FSSIZE && r < 2 && ws != []
    requires forall i :: 0 <= i < |ws| ==> ws[i].pbn < LOGICAL_DISK_SIZE
    requires var p := Replicate(ws[..|ws| - 1], failDisk);
      && |p| < k <= |Replicate(ws, failDisk)|
      && |p| == (if failDisk == 0 || failDisk == 1 then |ws| - 1 else 2 * (|ws| - 1))
      && Replica(Apply(d, p), r) == Apply(Replica(d, r), ws[..|ws| - 1][..Reached(failDisk, r, |p|)])
    ensures Reached(failDisk, r, k) <= |ws|
    ensures Replica(Apply(d, Replicate(ws, failDisk)[..k]), r)
         == Apply(Replica(d, r), ws[..Reached(failDisk, r, k)])
  {
    hide Apply, Replica, ApplyOne;
    var n := |ws| - 1;
    var p := Replicate(ws[..n], failDisk);
    var m, last := k - |p|, ws[n];
    var tail := BwriteWrites(last.pbn, last.data, failDisk, -1);
    assert Replicate(ws, failDisk)[..k] == p + tail[..m];
    ApplyConcat(d, p, tail[..m]);
    BwritePrefix(Apply(d, p), last, failDisk, m, r);
    var c0, c := Reached(failDisk, r, |p|), Reached(failDisk, r, k);
    assert c == c0 + Reached(failDisk, r, m);
    if c == c0 {
      assert ws[..c] == ws[..n][..c0];
    } else {
      assert c0 == n;
      assert ws[..c] == ws[..n][..c0] + [last];
      ApplyAppend(Replica(d, r), ws[..n][..c0], last);
    }
  }
}
