// Failure injection over whole runs of the mirrored layer (kernel/bio.c): which
// replica holds the latest contents of a block, and what a read of it returns.
module MirrorRuns {
  import opened Blocks
  import opened MirroredDisk
  import opened Wrappers

  // What can happen to the mirrored layer: a test sets force_disk_fail_id or
  // force_read_error_pbn, or the kernel bwrites a logical block.
  datatype Event =
    | FailDisk(id: int)
    | FailBlock(pbn: int)
    | Bwrite(b: nat, data: Block)

  datatype Machine = Machine(disk: seq<Block>, failDisk: int, failPbn: int)

  function Step(m: Machine, e: Event): (r: Machine)
    ensures |r.disk| == |m.disk|
  {
    match e
    case FailDisk(id) => m.(failDisk := id)
    case FailBlock(pbn) => m.(failPbn := pbn)
    case Bwrite(b, data) => m.(disk := Apply(m.disk, BwriteWrites(b, data, m.failDisk, m.failPbn)))
  }

  function Run(m: Machine, es: seq<Event>): (r: Machine)
    ensures |r.disk| == |m.disk|
  {
    if es == [] then m else Step(Run(m, es[..|es| - 1]), es[|es| - 1])
  }

  // Does a bread of block b go to disk 1 (kernel/bio.c)?
  predicate Fallback(m: Machine, b: nat) {
    m.failDisk == 0 || m.failPbn == b
  }

  // What a bread that goes to the device returns.
  function DeviceRead(m: Machine, b: nat): (data: Block)
    requires |m.disk| == FSSIZE && b < LOGICAL_DISK_SIZE
  {
    if Fallback(m, b) then m.disk[b + DISK1_START_BLOCK] else m.disk[b]
  }

  // The data of the latest bwrite of b in a history.
  function LastWritten(es: seq<Event>, b: nat): (r: Option<Block>)
  {
    if es == [] then None else
      var e := es[|es| - 1];
      if e.Bwrite? && e.b == b then Some(e.data) else LastWritten(es[..|es| - 1], b)
  }

  // The data of the latest bwrite of b that was not kept away from disk 0.
  function LastOnPrimary(m: Machine, es: seq<Event>, b: nat): (r: Option<Block>)
  {
    if es == [] then None else
      var e, init := es[|es| - 1], es[..|es| - 1];
      if e.Bwrite? && e.b == b && !Fallback(Run(m, init), b) then Some(e.data)
      else LastOnPrimary(m, init, b)
  }

  // Was disk 0 skipped by the latest bwrite of b?
  predicate Skipped(m: Machine, es: seq<Event>, b: nat) {
    es != [] &&
    var e, init := es[|es| - 1], es[..|es| - 1];
    if e.Bwrite? && e.b == b then Fallback(Run(m, init), b) else Skipped(m, init, b)
  }

  predicate InRange(es: seq<Event>) {
    forall i :: 0 <= i < |es| ==> es[i].Bwrite? ==> es[i].b < LOGICAL_DISK_SIZE
  }

  predicate Disk1Up(m: Machine, es: seq<Event>) {
    m.failDisk != 1 && forall i :: 0 <= i < |es| ==> es[i] != FailDisk(1)
  }

  function OrElse(o: Option<Block>, d: Block): Block {
    if o.Some? then o.value else d
  }

  lemma {:induction false} FailDiskNever1(m: Machine, es: seq<Event>)
    requires Disk1Up(m, es)
    ensures Run(m, es).failDisk != 1
    decreases |es|
  {
    if es != [] {
      assert es[|es| - 1] != FailDisk(1);
      FailDiskNever1(m, es[..|es| - 1]);
    }
  }

  lemma BwriteEffect(m: Machine, b: nat, data: Block, x: nat)
    requires |m.disk| == FSSIZE && b < LOGICAL_DISK_SIZE && x < LOGICAL_DISK_SIZE && m.failDisk != 1
    ensures var d := Step(m, Bwrite(b, data)).disk;
      && d[x + DISK1_START_BLOCK] == (if x == b then data else m.disk[x + DISK1_START_BLOCK])
      && d[x] == (if x == b && !Fallback(m, b) then data else m.disk[x])
  {
    var w0, w1 := Write(b, data), Write(b + DISK1_START_BLOCK, data);
    ApplyShort(m.disk, w0, w1);
    ApplyShort(m.disk, w1, w1);
    assert BwriteWrites(b, data, m.failDisk, m.failPbn) == if Fallback(m, b) then [w1] else [w0, w1];
  }

  // While disk 1 never fails, disk 1 holds the latest bwritten contents of every block
  // and disk 0 the latest that did not skip it; blocks never written keep what they had.
  lemma {:induction false} MirrorAuthority(m: Machine, es: seq<Event>, b: nat)
    requires |m.disk| == FSSIZE && InRange(es) && Disk1Up(m, es) && b < LOGICAL_DISK_SIZE
    ensures Run(m, es).disk[b + DISK1_START_BLOCK]
         == OrElse(LastWritten(es, b), m.disk[b + DISK1_START_BLOCK])
    ensures Run(m, es).disk[b] == OrElse(LastOnPrimary(m, es, b), m.disk[b])
    ensures LastWritten(es, b).Some? && !Skipped(m, es, b) ==> LastOnPrimary(m, es, b) == LastWritten(es, b)
    decreases |es|
  {
    if es != [] {
      var init, e := es[..|es| - 1], es[|es| - 1];
      assert InRange(init) && Disk1Up(m, init);
      MirrorAuthority(m, init, b);
      FailDiskNever1(m, init);
      if e.Bwrite? {
        BwriteEffect(Run(m, init), e.b, e.data, b);
      }
    }
  }

  // A read that falls back returns the latest data, and so does any other read of a
  // block whose latest bwrite reached disk 0; the rest return what disk 0 last received.
  lemma ReadsLastWritten(m: Machine, es: seq<Event>, b: nat)
    requires |m.disk| == FSSIZE && InRange(es) && Disk1Up(m, es) && b < LOGICAL_DISK_SIZE
    requires LastWritten(es, b).Some?
    ensures DeviceRead(Run(m, es), b)
         == if Fallback(Run(m, es), b) || !Skipped(m, es, b) then LastWritten(es, b).value
            else OrElse(LastOnPrimary(m, es, b), m.disk[b])
  {
    MirrorAuthority(m, es, b);
  }

  // The remaining case is real: disk 0 fails, block b is written, disk 0 comes back.
  lemma StaleAfterReturn(m: Machine, b: nat, data: Block)
    requires |m.disk| == FSSIZE && b < LOGICAL_DISK_SIZE && m.failDisk != 1 && m.failPbn == -1
    requires data != m.disk[b]
    ensures var es := [FailDisk(0), Bwrite(b, data), FailDisk(-1)];
      Disk1Up(m, es) && LastWritten(es, b) == Some(data) && DeviceRead(Run(m, es), b) != data
  {
    var es := [FailDisk(0), Bwrite(b, data), FailDisk(-1)];
    assert es[..2] == [FailDisk(0), Bwrite(b, data)] && es[..2][..1] == [FailDisk(0)] && es[..2][..1][..0] == [];
    var m1 := Run(m, es[..2][..1]);
    assert Run(m, []) == m && m1 == Step(Run(m, es[..2][..1][..0]), FailDisk(0)) == m.(failDisk := 0);
    BwriteEffect(m1, b, data, b);
    assert Run(m, es[..2]) == Step(m1, Bwrite(b, data));
    assert LastWritten(es[..2], b) == Some(data);
  }
}
