// Block allocation and file contents (kernel/fs.c, kernel/file.c), updating the bitmap,
// the inodes and the blocks in place.
module FileSystem {
  import opened Wrappers
  import opened Blocks
  import opened Inodes

  const BPB: nat := BSIZE * 8      // bitmap bits per block
  const IPB: nat := BSIZE / 64     // inodes per block

  datatype BmapResult = OutOfRange | OutOfBlocks | Found(addr: nat)

  // The addresses bmap may fill for block bn of inode i; every other one is kept.
  ghost predicate AddrKept(inodes: seq<Inode>, blocks: seq<Block>, inodes': seq<Inode>, blocks': seq<Block>, i: nat,
                           n: nat) {
    forall i': nat, n': nat ::
      Addr(inodes', blocks', i', n') == Addr(inodes, blocks, i', n')
      || (Addr(inodes, blocks, i', n') == 0 && i' == i && (n' == n || n' == NDIRECT))
  }

  lemma KeptSelf(inodes: seq<Inode>, blocks: seq<Block>, i: nat, n: nat)
    ensures AddrKept(inodes, blocks, inodes, blocks, i, n) && SameBytes(inodes, blocks, inodes, blocks)
    ensures SameSizes(inodes, inodes)
  {
  }

  // A free block is zeroed and put into an empty slot of the inode itself.
  lemma FillDirect(inodes: seq<Inode>, blocks: seq<Block>, own: seq<Owner>, i: nat, n: nat, b: nat)
    requires Slots(inodes, blocks, own) && i < |inodes| && n <= NDIRECT && Addr(inodes, blocks, i, n) == 0
    requires 0 < b < |own| && own[b] == Free
    ensures |inodes[i].addrs| == NDIRECT + 1
    ensures var inodes', blocks' := WithAddr(inodes, i, n, b), blocks[b := ZERO_BLOCK];
      && Slots(inodes', blocks', own[b := Slot(i, n)]) && Addr(inodes', blocks', i, n) == b
      && AddrKept(inodes, blocks, inodes', blocks', i, n) && SameBytes(inodes, blocks, inodes', blocks')
      && SameSizes(inodes, inodes')
  {
    hide ByteAt;
    var blocks1, own1 := blocks[b := ZERO_BLOCK], own[b := Held];
    AddrFrame(inodes, blocks, own, b, ZERO_BLOCK);
    BytesFrame(inodes, blocks, own, b, ZERO_BLOCK);
    RetagLoose(inodes, blocks, own, b, Held);
    SlotsFrame(inodes, blocks, own1, b, ZERO_BLOCK);
    SetDirect(inodes, blocks1, own1, i, n, b);
    BytesSet(inodes, blocks1, own1, WithAddr(inodes, i, n, b), blocks1, i, n, b);
    assert own1[b := Slot(i, n)] == own[b := Slot(i, n)];
  }

  // A free block is zeroed and put into an empty entry of the indirect block.
  lemma FillVia(inodes: seq<Inode>, blocks: seq<Block>, own: seq<Owner>, i: nat, j: nat, b: nat)
    requires Slots(inodes, blocks, own) && i < |inodes| && j < NINDIRECT && 0 < b < |own| && own[b] == Free
    requires Addr(inodes, blocks, i, NDIRECT) != 0 && Addr(inodes, blocks, i, NDIRECT + 1 + j) == 0
    ensures var a, n := Addr(inodes, blocks, i, NDIRECT), NDIRECT + 1 + j;
      && a < |blocks| && a != b
      && var blocks' := blocks[b := ZERO_BLOCK][a := SetWord(blocks[a], j, b)];
         && Slots(inodes, blocks', own[b := Slot(i, n)]) && Addr(inodes, blocks', i, n) == b
         && AddrKept(inodes, blocks, inodes, blocks', i, n) && SameBytes(inodes, blocks, inodes, blocks')
  {
    hide ByteAt, Word, SetWord, ListedBlock;
    var a, n := Addr(inodes, blocks, i, NDIRECT), NDIRECT + 1 + j;
    var blocks1, own1 := blocks[b := ZERO_BLOCK], own[b := Held];
    assert own[a] == Slot(i, NDIRECT);
    AddrFrame(inodes, blocks, own, b, ZERO_BLOCK);
    BytesFrame(inodes, blocks, own, b, ZERO_BLOCK);
    RetagLoose(inodes, blocks, own, b, Held);
    SlotsFrame(inodes, blocks, own1, b, ZERO_BLOCK);
    SetVia(inodes, blocks1, own1, i, j, b);
    var blocks2 := blocks1[a := SetWord(blocks[a], j, b)];
    BytesSet(inodes, blocks1, own1, inodes, blocks2, i, n, b);
    assert own1[b := Slot(i, n)] == own[b := Slot(i, n)];
  }

  // No block is left.
  ghost predicate Full(own: seq<Owner>) {
    forall b: nat :: b < |own| ==> own[b] != Free
  }

  // The owners after the first n slots of inode i have been freed.
  ghost predicate OwnTruncated(own: seq<Owner>, own': seq<Owner>, i: nat, n: nat) {
    && |own'| == |own|
    && forall b: nat :: b < |own| ==>
         own'[b] == if own[b].Slot? && own[b].inum == i && own[b].n < n then Free else own[b]
  }

  // Freeing the block of one direct slot.
  lemma TruncStep(inodes: seq<Inode>, blocks: seq<Block>, own0: seq<Owner>, own: seq<Owner>, i: nat, n: nat)
    requires Slots(inodes, blocks, own) && OwnTruncated(own0, own, i, n) && i < |inodes| && n < NDIRECT
    ensures var b := Addr(inodes, blocks, i, n);
      && (b == 0 ==> OwnTruncated(own0, own, i, n + 1))
      && (b != 0 ==>
            && b < |own| && Detached(own, i, n)[b] == Held
            && OwnTruncated(own0, Detached(own, i, n)[b := Free], i, n + 1))
  {
    hide Addr;
    var b := Addr(inodes, blocks, i, n);
    forall c: nat | c < |own| && own[c] == Slot(i, n) ensures c == b {
      assert Addr(inodes, blocks, own[c].inum, own[c].n) == c;
    }
  }

  // What is left after the direct blocks: the indirect block and the blocks it lists.
  lemma TruncIndirect(inodes: seq<Inode>, blocks: seq<Block>, own0: seq<Owner>, own: seq<Owner>, i: nat)
    requires Slots(inodes, blocks, own) && OwnTruncated(own0, own, i, NDIRECT) && i < |inodes|
    ensures var a := Addr(inodes, blocks, i, NDIRECT);
      && (a == 0 ==> OwnTruncated(own0, own, i, NSLOTS))
      && (a != 0 ==> a < |own| && Detached(own, i, NDIRECT)[a] == Held)
  {
    hide Word;
    forall c: nat | c < |own| && own[c].Slot? ensures Addr(inodes, blocks, own[c].inum, own[c].n) == c {
    }
  }

  // The owners while the entries of the indirect block are being freed.
  ghost predicate ViaFreed(own: seq<Owner>, own': seq<Owner>, i: nat, j: nat) {
    && |own'| == |own|
    && forall b: nat :: b < |own| ==>
         own'[b] == if own[b].Slot? && own[b].inum == i && NDIRECT < own[b].n <= NDIRECT + j then Free
                    else Detached(own, i, NDIRECT)[b]
  }

  lemma ViaStep(inodes: seq<Inode>, blocks: seq<Block>, own1: seq<Owner>, own: seq<Owner>, i: nat, j: nat)
    requires Slots(inodes, blocks, own1) && ViaFreed(own1, own, i, j) && i < |inodes| && j < NINDIRECT
    ensures var b := Addr(inodes, blocks, i, NDIRECT + 1 + j);
      && (b == 0 ==> ViaFreed(own1, own, i, j + 1))
      && (b != 0 ==> b < |own| && own[b] == Held && ViaFreed(own1, own[b := Free], i, j + 1))
  {
    hide Addr;
    var b := Addr(inodes, blocks, i, NDIRECT + 1 + j);
    forall c: nat | c < |own1| && own1[c] == Slot(i, NDIRECT + 1 + j) ensures c == b {
      assert Addr(inodes, blocks, own1[c].inum, own1[c].n) == c;
    }
  }

  lemma ViaDone(inodes: seq<Inode>, blocks: seq<Block>, own0: seq<Owner>, own1: seq<Owner>, own: seq<Owner>, i: nat)
    requires Slots(inodes, blocks, own1) && OwnTruncated(own0, own1, i, NDIRECT) && ViaFreed(own1, own, i, NINDIRECT)
    requires i < |inodes|
    ensures var a := Addr(inodes, blocks, i, NDIRECT);
      a != 0 ==> a < |own| && own[a] == Held && OwnTruncated(own0, own[a := Free], i, NSLOTS)
  {
    hide Word;
    var a := Addr(inodes, blocks, i, NDIRECT);
    forall c: nat | c < |own1| && own1[c].Slot? ensures Addr(inodes, blocks, own1[c].inum, own1[c].n) == c {
    }
  }

  datatype WriteResult = WriteError | WritePanic | Wrote(count: nat)
  datatype ReadResult = Got(data: seq<byte>) | ReadError | ReadPanic

  // ip->type; the model keeps it apart from the inode.
  datatype FileType = Unused | Directory | Plain | Device | Symlink

  // The number of blocks that the bytes [off, off + n) touch.
  function Touched(off: nat, n: nat): nat {
    if n == 0 then 0 else (off + n - 1) / BSIZE - off / BSIZE + 1
  }

  // How many of the t blocks from lo on a file does not have.
  ghost function Missing(inodes: seq<Inode>, blocks: seq<Block>, i: nat, lo: nat, t: nat): nat {
    if t == 0 then 0
    else Missing(inodes, blocks, i, lo, t - 1) + if Addr(inodes, blocks, i, SlotOf(lo + t - 1)) == 0 then 1 else 0
  }

  // How far the loop of writei has come after t blocks.
  ghost predicate Round(off: nat, n: nat, tot: nat, t: nat) {
    tot <= n && (tot < n ==> (off + tot) / BSIZE == off / BSIZE + t) && (tot == n ==> t == Touched(off, n))
  }

  // How much of n bytes at off goes into the block there.
  function Piece(off: nat, n: nat): nat {
    if n < BSIZE - off % BSIZE then n else BSIZE - off % BSIZE
  }

  lemma RoundStep(off: nat, n: nat, tot: nat, t: nat)
    requires Round(off, n, tot, t) && tot < n
    ensures var m := Piece(off + tot, n - tot);
      0 < m <= n - tot && (off + tot) % BSIZE + m <= BSIZE && Round(off, n, tot + m, t + 1)
  {
    var p, m := off + tot, Piece(off + tot, n - tot);
    assert p == p / BSIZE * BSIZE + p % BSIZE;
    if tot + m == n {
      assert (p + m - 1) / BSIZE == p / BSIZE;
    } else {
      assert (p + m) / BSIZE == p / BSIZE + 1;
    }
  }

  // What one round may log.
  ghost predicate RoundLogs(logged: set<nat>, logged': set<nat>, addr: nat, map1: nat, missing: bool, via: bool,
                            ind: set<nat>) {
    logged' <= logged + {addr} + if missing then {map1} + (if via then ind else {}) else {}
  }

  lemma FootprintKind(logged0: set<nat>, logged: set<nat>, s: set<nat>, x: set<nat>, count: nat, ind: set<nat>)
    requires Footprint(logged0, logged, s, x, count, ind)
    ensures x != {} ==> x == ind
  {
  }

  lemma FootprintStep(logged0: set<nat>, logged1: set<nat>, logged: set<nat>, s: set<nat>, x: set<nat>, count: nat,
                      ind1: set<nat>, ind: set<nat>, addr: nat, map1: nat, missing: bool, via: bool)
    returns (s': set<nat>, x': set<nat>)
    requires Footprint(logged0, logged1, s, x, count, ind1) && (x != {} ==> ind == ind1)
    requires RoundLogs(logged1, logged, addr, map1, missing, via, ind)
    ensures Footprint(logged0, logged, s', x', count + if missing then 2 else 1, ind)
  {
    var s1 := s + {addr};
    assert |s1| <= |s| + 1;
    assert |s1 + {map1}| <= |s1| + 1;
    s' := if missing then s1 + {map1} else s1;
    x' := if missing && via then ind else x;
  }

  lemma FootprintBound(logged0: set<nat>, logged: set<nat>, s: set<nat>, x: set<nat>, count: nat, ind: set<nat>,
                       ib: nat)
    requires Footprint(logged0, logged, s, x, count, ind) && |ind| <= 2
    ensures |logged + {ib} - logged0| <= count + 3 && |logged - logged0| <= count + 3
  {
    var d := logged + {ib} - logged0;
    assert d <= s + x + {ib};
    SubsetSize(d, s + x + {ib});
    SubsetSize(logged - logged0, d);
  }

  lemma SubsetSize(a: set<nat>, b: set<nat>)
    requires a <= b
    ensures |a| <= |b|
  {
    assert b == a + (b - a);
  }

  // The addresses after t blocks from lo on have been written: those that were there are
  // kept, those written are there, and those ahead are as they were.
  ghost predicate AddrRun(in0: seq<Inode>, bl0: seq<Block>, in1: seq<Inode>, bl1: seq<Block>, i: nat, lo: nat, t: nat) {
    && (forall j: nat, s: nat :: Addr(in0, bl0, j, s) != 0 ==> Addr(in1, bl1, j, s) == Addr(in0, bl0, j, s))
    && (forall bn: nat :: lo <= bn < lo + t ==> Addr(in1, bl1, i, SlotOf(bn)) != 0)
    && (forall bn: nat :: lo + t <= bn ==> Addr(in1, bl1, i, SlotOf(bn)) == Addr(in0, bl0, i, SlotOf(bn)))
  }

  // The blocks logged after t rounds, beyond logged0: at most one for each block written
  // and one more for each block that was missing, and the indirect block with its bitmap
  // block, if there is an indirect block.
  ghost predicate Footprint(logged0: set<nat>, logged: set<nat>, s: set<nat>, x: set<nat>, count: nat, ind: set<nat>) {
    logged <= logged0 + s + x && |s| <= count && (x == {} || x == ind)
  }

  // One round of the loop of writei.
  lemma WriteRound(in0: seq<Inode>, bl0: seq<Block>, in1: seq<Inode>, bl1: seq<Block>, in2: seq<Inode>, bl2: seq<Block>,
                   i: nat, off: nat, src: seq<byte>, tot: nat, m: nat, lo: nat, t: nat)
    requires SameSizes(in0, in1) && SameSizes(in1, in2) && tot + m <= |src|
    requires BytesWritten(in0, bl0, in1, bl1, i, off, src[..tot])
    requires BytesWritten(in1, bl1, in2, bl2, i, off + tot, src[tot..tot + m])
    requires AddrRun(in0, bl0, in1, bl1, i, lo, t) && AddrKept(in1, bl1, in2, bl2, i, SlotOf(lo + t))
    requires Addr(in2, bl2, i, SlotOf(lo + t)) != 0
    ensures SameSizes(in0, in2) && BytesWritten(in0, bl0, in2, bl2, i, off, src[..tot + m])
    ensures AddrRun(in0, bl0, in2, bl2, i, lo, t + 1)
    ensures Missing(in0, bl0, i, lo, t + 1)
         == Missing(in0, bl0, i, lo, t) + if Addr(in1, bl1, i, SlotOf(lo + t)) == 0 then 1 else 0
    ensures Addr(in1, bl1, i, NDIRECT) != 0 ==> Addr(in2, bl2, i, NDIRECT) == Addr(in1, bl1, i, NDIRECT)
  {
    hide Addr, ByteAt;
    KeptSelf(in1, bl1, i, 0);
    assert src[..tot] + src[tot..tot + m] == src[..tot + m];
  }

  lemma SizesTrans(in0: seq<Inode>, in1: seq<Inode>, in2: seq<Inode>)
    requires SameSizes(in0, in1) && SameSizes(in1, in2)
    ensures SameSizes(in0, in2) && |in2| == |in0|
  {
  }

  lemma RoundEnd(off: nat, n: nat, t: nat)
    requires Round(off, n, n, t)
    ensures t == Touched(off, n)
  {
  }

  // No other inode has changed.
  ghost predicate OnlyInode(in0: seq<Inode>, in1: seq<Inode>, i: nat) {
    |in1| == |in0| && forall j: nat :: j < |in0| && j != i ==> in1[j] == in0[j]
  }

  // The size a write leaves.
  function Resized(inodes: seq<Inode>, i: nat, end: nat): (r: seq<Inode>)
    requires i < |inodes|
    ensures |r| == |inodes|
  {
    if end > inodes[i].size then inodes[i := inodes[i].(size := end)] else inodes
  }

  lemma FinishWrite(in0: seq<Inode>, bl0: seq<Block>, in1: seq<Inode>, bl1: seq<Block>, own: seq<Owner>, i: nat,
                    off: nat, src: seq<byte>)
    requires Slots(in1, bl1, own) && SameSizes(in0, in1) && BytesWritten(in0, bl0, in1, bl1, i, off, src)
    requires AddrRun(in0, bl0, in1, bl1, i, off / BSIZE, Touched(off, |src|))
    requires i < |in0| && off <= in0[i].size && off + |src| <= MAXFILE * BSIZE
    ensures var in2 := Resized(in1, i, off + |src|);
      && Slots(in2, bl1, own) && |in2| == |in0|
      && FileWritten(in0, bl0, in2, bl1, i, off, src)
      && (NoHoles(in0, bl0) ==> NoHoles(in2, bl1))
  {
    hide Slots, Addr, ByteAt, AddrRun, NoHoles, Contents;
    var in2 := Resized(in1, i, off + |src|);
    KeptSelf(in1, bl1, i, 0);
    if off + |src| > in1[i].size {
      SizeFrame(in1, bl1, own, i, off + |src|);
    }
    forall j: nat | j < |in2|
      ensures Contents(in2, bl1, j)
           == if j == i && src != [] then Spliced(Contents(in0, bl0, j), off, src) else Contents(in0, bl0, j)
    {
      WrittenContents(in0, bl0, in2, bl1, i, off, src, j);
    }
    if NoHoles(in0, bl0) {
      AddrRunThen(in0, bl0, in1, bl1, in2, i, off / BSIZE, Touched(off, |src|));
      NoHolesAfter(in0, bl0, in2, bl1, i, off, |src|);
    }
  }

  // Sizes play no part in addresses.
  lemma AddrRunThen(in0: seq<Inode>, bl0: seq<Block>, in1: seq<Inode>, bl1: seq<Block>, in2: seq<Inode>, i: nat,
                    lo: nat, t: nat)
    requires AddrRun(in0, bl0, in1, bl1, i, lo, t) && |in2| == |in1|
    requires forall j :: 0 <= j < |in1| ==> in2[j].addrs == in1[j].addrs
    ensures AddrRun(in0, bl0, in2, bl1, i, lo, t)
  {
    assert forall j: nat, s: nat :: Addr(in2, bl1, j, s) == Addr(in1, bl1, j, s) by {
      hide ListedBlock;
      forall j: nat, s: nat ensures Addr(in2, bl1, j, s) == Addr(in1, bl1, j, s) {
      }
    }
    hide Addr;
  }

  lemma SizeFrame(inodes: seq<Inode>, blocks: seq<Block>, own: seq<Owner>, i: nat, size: nat)
    requires Slots(inodes, blocks, own) && i < |inodes| && size <= MAXFILE * BSIZE
    ensures Slots(inodes[i := inodes[i].(size := size)], blocks, own)
    ensures SameBytes(inodes, blocks, inodes[i := inodes[i].(size := size)], blocks)
  {
    hide Word;
    var inodes' := inodes[i := inodes[i].(size := size)];
    forall i': nat, n: nat ensures Addr(inodes', blocks, i', n) == Addr(inodes, blocks, i', n) {
    }
  }

  // After a write from off on that reaches past every hole it could make.
  lemma NoHolesAfter(in0: seq<Inode>, bl0: seq<Block>, in1: seq<Inode>, bl1: seq<Block>, i: nat, off: nat, n: nat)
    requires NoHoles(in0, bl0) && |in1| == |in0| && i < |in0| && off <= in0[i].size
    requires AddrRun(in0, bl0, in1, bl1, i, off / BSIZE, Touched(off, n))
    requires forall j :: 0 <= j < |in0| ==>
      in1[j].size == if j == i && off + n > in0[j].size then off + n else in0[j].size
    ensures NoHoles(in1, bl1)
  {
    hide Addr;
    forall j: nat, bn: nat | j < |in1| && bn * BSIZE < in1[j].size ensures Addr(in1, bl1, j, SlotOf(bn)) != 0 {
      if bn * BSIZE < in0[j].size {
        assert Addr(in0, bl0, j, SlotOf(bn)) != 0;
      } else {
        BlockRange(off, n, bn);
      }
    }
  }

  lemma BlockRange(off: nat, n: nat, bn: nat)
    requires off <= bn * BSIZE < off + n
    ensures off / BSIZE <= bn < off / BSIZE + Touched(off, n)
  {
    assert bn <= (off + n - 1) / BSIZE;
  }

  // A block that lies inside a file can be mapped, and is there if there are no holes.
  lemma InFile(in0: seq<Inode>, inodes: seq<Inode>, blocks: seq<Block>, i: nat, off: nat)
    requires Wf(inodes) && SameSizes(in0, inodes) && i < |in0| && off < in0[i].size
    ensures off / BSIZE < MAXFILE
    ensures NoHoles(inodes, blocks) ==> Addr(inodes, blocks, i, SlotOf(off / BSIZE)) != 0
  {
    hide Addr;
    assert off / BSIZE * BSIZE <= off;
  }

  lemma HolesKept(in1: seq<Inode>, bl1: seq<Block>, in2: seq<Inode>, bl2: seq<Block>, i: nat, n: nat)
    requires AddrKept(in1, bl1, in2, bl2, i, n) && SameSizes(in1, in2)
    ensures NoHoles(in1, bl1) ==> NoHoles(in2, bl2)
  {
    hide Addr;
  }

  lemma ChunkBytes(in0: seq<Inode>, bl0: seq<Block>, inodes: seq<Inode>, blocks: seq<Block>, i: nat, off: nat, m: nat,
                   chunk: seq<byte>)
    requires SameBytes(in0, bl0, inodes, blocks) && off % BSIZE + m <= BSIZE
    requires var a := Addr(inodes, blocks, i, SlotOf(off / BSIZE));
      0 < a < |blocks| && chunk == blocks[a].bytes[off % BSIZE..off % BSIZE + m]
    ensures |chunk| == m && forall k :: 0 <= k < m ==> chunk[k] == ByteAt(in0, bl0, i, off + k)
  {
    hide Addr;
    forall k | 0 <= k < m ensures chunk[k] == ByteAt(in0, bl0, i, off + k) {
      InBlock(off, m, off + k);
      assert ByteAt(in0, bl0, i, off + k) == ByteAt(inodes, blocks, i, off + k);
    }
  }

  const INT_LIMIT: nat := 0x8000_0000
  const CHUNK: nat := (MAXOPBLOCKS - 1 - 1 - 2) / 2 * BSIZE

  datatype Snapshot = Snapshot(used: seq<bool>, inodes: seq<Inode>, blocks: seq<Block>)

  datatype FileResult = FilePanic | FileError | FileOk(count: nat)

  function Min(a: nat, b: nat): nat { if a < b then a else b }

  lemma MissingBound(inodes: seq<Inode>, blocks: seq<Block>, i: nat, lo: nat, t: nat)
    ensures Missing(inodes, blocks, i, lo, t) <= t
    ensures t > 0 && Addr(inodes, blocks, i, SlotOf(lo)) != 0 ==> Missing(inodes, blocks, i, lo, t) < t
  {
    if t > 1 {
      MissingBound(inodes, blocks, i, lo, t - 1);
    }
  }

  // A chunk of filewrite fits the log reservation: an unaligned chunk touches one block
  // more, but its first block is there already.
  lemma ChunkLimit(inodes: seq<Inode>, blocks: seq<Block>, i: nat, off: nat, n: nat)
    requires NoHoles(inodes, blocks) && i < |inodes| && off <= inodes[i].size && n <= CHUNK
    ensures Touched(off, n) + Missing(inodes, blocks, i, off / BSIZE, Touched(off, n)) + 3 <= MAXOPBLOCKS
  {
    hide Addr;
    MissingBound(inodes, blocks, i, off / BSIZE, Touched(off, n));
    if off % BSIZE == 0 {
      assert Touched(off, n) <= 3;
    } else {
      assert Touched(off, n) <= 4;
      assert off / BSIZE * BSIZE < inodes[i].size;
    }
  }

  // Two adjacent writes are one.
  lemma SplicedTwice(s: seq<byte>, off: nat, src: seq<byte>, k: nat, m: nat)
    requires off <= |s| && k + m <= |src|
    ensures Spliced(Spliced(s, off, src[..k]), off + k, src[k..k + m]) == Spliced(s, off, src[..k + m])
  {
  }

  // Inode i, and no other, has had data written at off.
  ghost predicate FileWritten(in0: seq<Inode>, bl0: seq<Block>, in1: seq<Inode>, bl1: seq<Block>, i: nat, off: nat,
                              data: seq<byte>) {
    && |in1| == |in0| && i < |in0| && (data != [] ==> off <= in0[i].size)
    && forall j: nat :: j < |in0| ==>
         Contents(in1, bl1, j)
         == if j == i && data != [] then Spliced(Contents(in0, bl0, j), off, data) else Contents(in0, bl0, j)
  }

  lemma SameBytesTrans(in0: seq<Inode>, bl0: seq<Block>, in1: seq<Inode>, bl1: seq<Block>, in2: seq<Inode>,
                       bl2: seq<Block>)
    requires SameBytes(in0, bl0, in1, bl1) && SameBytes(in1, bl1, in2, bl2)
    ensures SameBytes(in0, bl0, in2, bl2)
  {
    hide ByteAt;
  }

  lemma FileWrittenStep(in0: seq<Inode>, bl0: seq<Block>, in1: seq<Inode>, bl1: seq<Block>, in2: seq<Inode>,
                        bl2: seq<Block>, i: nat, off: nat, src: seq<byte>, k: nat, m: nat)
    requires k + m <= |src| && m > 0 && FileWritten(in0, bl0, in1, bl1, i, off, src[..k])
    requires FileWritten(in1, bl1, in2, bl2, i, off + k, src[k..k + m])
    ensures FileWritten(in0, bl0, in2, bl2, i, off, src[..k + m])
  {
    hide Spliced;
    if k > 0 {
      SplicedTwice(Contents(in0, bl0, i), off, src, k, m);
    }
    assert k == 0 ==> src[..k + m] == src[k..k + m];
    assert |in1[i].addrs| >= 0 && |Contents(in1, bl1, i)| == in1[i].size;
  }

  lemma FileWrittenNone(in0: seq<Inode>, bl0: seq<Block>, i: nat, off: nat)
    requires i < |in0|
    ensures FileWritten(in0, bl0, in0, bl0, i, off, [])
  {
  }

  lemma FileWrittenEnd(in0: seq<Inode>, bl0: seq<Block>, in1: seq<Inode>, bl1: seq<Block>, i: nat, off: nat,
                       data: seq<byte>)
    requires FileWritten(in0, bl0, in1, bl1, i, off, data)
    ensures data != [] ==> off <= in0[i].size && off + |data| <= in1[i].size
    ensures data == [] ==> in1[i].size == in0[i].size
  {
    hide Spliced;
    assert |Contents(in1, bl1, i)| == in1[i].size && |Contents(in0, bl0, i)| == in0[i].size;
  }

  class FileSystem {
    const bmapstart: nat
    const inodestart: nat
    var used: seq<bool>              // the bitmap
    var inodes: seq<Inode>
    var blocks: seq<Block>
    ghost var own: seq<Owner>
    ghost var logged: set<nat>       // the blocks given to log_write

    ghost predicate Valid()
      reads this
    {
      Bits(used, own) && Slots(inodes, blocks, own)
    }

    // fsinit: the file system as it is found on the disk.
    constructor (bmapstart: nat, inodestart: nat, used: seq<bool>, inodes: seq<Inode>, blocks: seq<Block>,
                 ghost own: seq<Owner>)
      requires Bits(used, own) && Slots(inodes, blocks, own)
      ensures Valid() && this.used == used && this.inodes == inodes && this.blocks == blocks && this.own == own
      ensures this.bmapstart == bmapstart && this.inodestart == inodestart && logged == {}
    {
      this.bmapstart, this.inodestart := bmapstart, inodestart;
      this.used, this.inodes, this.blocks, this.own := used, inodes, blocks, own;
      logged := {};
    }

    // BBLOCK: the bitmap block with the bit of block b.
    function MapBlock(b: nat): (r: nat)
      ensures bmapstart <= r && (r - bmapstart) * BSIZE * 8 <= b < (r - bmapstart + 1) * BSIZE * 8
    {
      b / BPB + bmapstart
    }

    // IBLOCK: the block with inode i.
    function InodeBlock(i: nat): (r: nat)
      ensures inodestart <= r && (r - inodestart) * BSIZE <= i * 64 < (r - inodestart + 1) * BSIZE
    {
      i / IPB + inodestart
    }

    // What has changed is in log: every data block, and the bitmap block of every bit.
    ghost predicate Recorded(log: set<nat>, used0: seq<bool>, used1: seq<bool>, bl0: seq<Block>, bl1: seq<Block>) {
      && |used1| == |used0| && |bl1| == |bl0|
      && (forall b: nat :: b < |bl0| && bl1[b] != bl0[b] ==> b in log)
      && (forall b: nat :: b < |used0| && used1[b] != used0[b] ==> MapBlock(b) in log)
    }

    lemma RecordedSelf(log: set<nat>, used0: seq<bool>, bl0: seq<Block>)
      ensures Recorded(log, used0, used0, bl0, bl0)
    {
    }

    lemma RecordedTrans(log1: set<nat>, log2: set<nat>, used0: seq<bool>, used1: seq<bool>, used2: seq<bool>,
                        bl0: seq<Block>, bl1: seq<Block>, bl2: seq<Block>)
      requires Recorded(log1, used0, used1, bl0, bl1) && Recorded(log2, used1, used2, bl1, bl2) && log1 <= log2
      ensures Recorded(log2, used0, used2, bl0, bl2)
    {
    }

    // One operation on inode i: what changed is recorded, apart from the inode, which is in
    // memory until iupdate, and nothing recorded before is lost.
    ghost predicate Tracked(log0: set<nat>, log1: set<nat>, used0: seq<bool>, used1: seq<bool>, bl0: seq<Block>,
                            bl1: seq<Block>, in0: seq<Inode>, in1: seq<Inode>, i: nat) {
      Recorded(log1, used0, used1, bl0, bl1) && OnlyInode(in0, in1, i) && log0 <= log1
    }

    lemma TrackedSelf(i: nat)
      ensures Tracked(logged, logged, used, used, blocks, blocks, inodes, inodes, i)
    {
    }

    lemma TrackedTrans(log0: set<nat>, log1: set<nat>, log2: set<nat>, used0: seq<bool>, used1: seq<bool>,
                       used2: seq<bool>, bl0: seq<Block>, bl1: seq<Block>, bl2: seq<Block>, in0: seq<Inode>,
                       in1: seq<Inode>, in2: seq<Inode>, i: nat)
      requires Tracked(log0, log1, used0, used1, bl0, bl1, in0, in1, i)
      requires Tracked(log1, log2, used1, used2, bl1, bl2, in1, in2, i)
      ensures Tracked(log0, log2, used0, used2, bl0, bl2, in0, in2, i)
    {
    }

    // Setting the size and iupdate.
    lemma UpdateInode(log0: set<nat>, used0: seq<bool>, bl0: seq<Block>, in0: seq<Inode>, i: nat, end: nat)
      requires Tracked(log0, logged, used0, used, bl0, blocks, in0, inodes, i) && i < |inodes|
      ensures Tracked(log0, logged + {InodeBlock(i)}, used0, used, bl0, blocks, in0, Resized(inodes, i, end), i)
    {
    }

    lemma RecordedFree(log: set<nat>, used0: seq<bool>, used1: seq<bool>, bl0: seq<Block>, bl1: seq<Block>, b: nat)
      requires Recorded(log, used0, used1, bl0, bl1) && b < |used1|
      ensures Recorded(log + {MapBlock(b)}, used0, used1[b := false], bl0, bl1)
    {
    }

    // The first free block, zeroed.  None is the panic "out of blocks".
    method Balloc() returns (r: Option<nat>)
      requires Valid()
      modifies `used, `blocks, `own, `logged
      ensures Valid()
      ensures r.None? <==> forall b :: 0 <= b < |old(own)| ==> old(own)[b] != Free
      ensures r.None? ==> used == old(used) && blocks == old(blocks) && own == old(own) && logged == old(logged)
      ensures r.Some? ==>
        && 0 < r.value < |old(own)| && |old(own)| == |old(used)| == |old(blocks)| <= UINT_LIMIT
             && old(own)[r.value] == Free
        && (forall c :: 0 <= c < r.value ==> old(own)[c] != Free)
        && own == old(own)[r.value := Held] && used == old(used)[r.value := true]
        && blocks == old(blocks)[r.value := ZERO_BLOCK]
        && logged == old(logged) + {MapBlock(r.value), r.value}
    {
      hide Slots;
      SlotsShape();
      var b := 0;
      while b < |used|
        invariant used == old(used) && blocks == old(blocks) && own == old(own) && logged == old(logged)
        invariant forall c: nat :: c < b && c < |own| ==> own[c] != Free
      {
        var bi := 0;
        while bi < BPB && b + bi < |used|
          invariant bi <= BPB && b + bi <= |used|
          invariant used == old(used) && blocks == old(blocks) && own == old(own) && logged == old(logged)
          invariant forall c: nat :: c < b + bi ==> own[c] != Free
        {
          if !used[b + bi] {
            var a := b + bi;
            RetagLoose(inodes, blocks, own, a, Held);
            used, own := used[a := true], own[a := Held];
            logged := logged + {MapBlock(a)};
            SlotsFrame(inodes, blocks, own, a, ZERO_BLOCK);
            blocks := blocks[a := ZERO_BLOCK];
            logged := logged + {a};
            return Some(a);
          }
          bi := bi + 1;
        }
        b := b + BPB;
      }
      return None;
    }

    lemma SlotsShape()
      requires Valid()
      ensures |blocks| == |own| == |used| && 0 < |own| <= UINT_LIMIT && own[0] == Meta && Wf(inodes)
    {
    }

    // Clear the bit of an allocated block.  The result false is the panic "freeing free block".
    method Bfree(b: nat) returns (ok: bool)
      requires Bits(used, own) && b < |own| && (own[b] == Free || own[b] == Held)
      modifies `used, `own, `logged
      ensures Bits(used, own) && (ok <==> old(own)[b] == Held)
      ensures own == old(own)[b := Free] && |used| == |old(used)| && used == old(used)[b := false]
      ensures logged == if ok then old(logged) + {MapBlock(b)} else old(logged)
    {
      if !used[b] {
        return false;
      }
      used, own := used[b := false], own[b := Free];
      logged := logged + {MapBlock(b)};
      return true;
    }

    // A new block for slot n of the inode itself.
    method AllocDirect(i: nat, n: nat) returns (r: Option<nat>)
      requires Valid() && i < |inodes| && n <= NDIRECT && Addr(inodes, blocks, i, n) == 0
      modifies this
      ensures Valid() && SameSizes(old(inodes), inodes)
      ensures SameBytes(old(inodes), old(blocks), inodes, blocks)
        && AddrKept(old(inodes), old(blocks), inodes, blocks, i, n)
      ensures Recorded(logged, old(used), used, old(blocks), blocks) && OnlyInode(old(inodes), inodes, i)
      ensures r.None? ==> logged == old(logged) && Full(own)
      ensures r.Some? ==>
        && 0 < r.value < |blocks| && Addr(inodes, blocks, i, n) == r.value
        && logged == old(logged) + {MapBlock(r.value), r.value}
    {
      hide Slots, Addr, ByteAt;
      KeptSelf(inodes, blocks, i, n);
      ghost var blocks0, own0 := blocks, own;
      r := Balloc();
      if r.None? {
        return;
      }
      var b := r.value;
      FillDirect(inodes, blocks0, own0, i, n, b);
      inodes, own := WithAddr(inodes, i, n, b), own[b := Slot(i, n)];
      assert own == own0[b := Slot(i, n)];
      SlotsShape();
    }

    // A new block for entry j of the indirect block.
    method AllocVia(i: nat, j: nat) returns (r: Option<nat>)
      requires Valid() && i < |inodes| && j < NINDIRECT
      requires Addr(inodes, blocks, i, NDIRECT) != 0 && Addr(inodes, blocks, i, NDIRECT + 1 + j) == 0
      modifies this
      ensures Valid() && inodes == old(inodes)
      ensures SameBytes(old(inodes), old(blocks), inodes, blocks)
      ensures AddrKept(old(inodes), old(blocks), inodes, blocks, i, NDIRECT + 1 + j)
      ensures Recorded(logged, old(used), used, old(blocks), blocks)
      ensures r.None? ==> logged == old(logged) && Full(own)
      ensures r.Some? ==>
        && 0 < r.value < |blocks| && Addr(inodes, blocks, i, NDIRECT + 1 + j) == r.value
        && Addr(inodes, blocks, i, NDIRECT) == Addr(old(inodes), old(blocks), i, NDIRECT)
        && logged == old(logged) + {MapBlock(r.value), r.value, Addr(inodes, blocks, i, NDIRECT)}
    {
      hide Slots, Addr, ByteAt, SetWord;
      KeptSelf(inodes, blocks, i, NDIRECT + 1 + j);
      ghost var blocks0, own0 := blocks, own;
      IndirectAddr(i);
      var a := inodes[i].addrs[NDIRECT];
      r := Balloc();
      if r.None? {
        return;
      }
      var b := r.value;
      FillVia(inodes, blocks0, own0, i, j, b);
      blocks, own := blocks[a := SetWord(blocks[a], j, b)], own[b := Slot(i, NDIRECT + 1 + j)];
      logged := logged + {a};
      assert own == own0[b := Slot(i, NDIRECT + 1 + j)];
      SlotsShape();
      IndirectAddr(i);
    }

    lemma IndirectAddr(i: nat)
      requires Valid() && i < |inodes|
      ensures |inodes[i].addrs| == NDIRECT + 1
      ensures forall n: nat :: n <= NDIRECT ==> inodes[i].addrs[n] == Addr(inodes, blocks, i, n)
      ensures forall n: nat :: Addr(inodes, blocks, i, n) < |blocks|
      ensures var a := Addr(inodes, blocks, i, NDIRECT);
        a != 0 ==> forall j: nat :: j < NINDIRECT ==> Addr(inodes, blocks, i, NDIRECT + 1 + j) == Word(blocks[a], j)
    {
    }

    // The disk block that holds block bn of a file, allocated if there was none.
    method Bmap(i: nat, bn: nat) returns (r: BmapResult)
      requires Valid() && i < |inodes|
      modifies this
      ensures Valid() && SameSizes(old(inodes), inodes)
      ensures SameBytes(old(inodes), old(blocks), inodes, blocks)
      ensures AddrKept(old(inodes), old(blocks), inodes, blocks, i, SlotOf(bn))
      ensures Tracked(old(logged), logged, old(used), used, old(blocks), blocks, old(inodes), inodes, i)
      ensures r.OutOfRange? <==> bn >= MAXFILE
      ensures r.OutOfBlocks? ==> Full(own) && Addr(old(inodes), old(blocks), i, SlotOf(bn)) == 0
      ensures r.Found? ==> 0 < r.addr < |blocks| && Addr(inodes, blocks, i, SlotOf(bn)) == r.addr
      ensures r.Found? && Addr(old(inodes), old(blocks), i, SlotOf(bn)) != 0 ==> logged == old(logged)
      ensures r.Found? && Addr(old(inodes), old(blocks), i, SlotOf(bn)) == 0 ==>
        var a := Addr(inodes, blocks, i, NDIRECT);
        && (bn < NDIRECT ==> logged <= old(logged) + {r.addr, MapBlock(r.addr)})
        && (bn >= NDIRECT ==> a != 0 && logged <= old(logged) + {r.addr, MapBlock(r.addr)} + {a, MapBlock(a)})
    {
      hide Slots, ByteAt, Bits, Word, Recorded;
      KeptSelf(inodes, blocks, i, SlotOf(bn));
      RecordedSelf(logged, used, blocks);
      IndirectAddr(i);
      if bn < NDIRECT {
        var addr: nat := inodes[i].addrs[bn];
        if addr == 0 {
          var got := AllocDirect(i, bn);
          if got.None? {
            return OutOfBlocks;
          }
          addr := got.value;
        }
        return Found(addr);
      }
      if bn - NDIRECT < NINDIRECT {
        ghost var inodes0, blocks0, used0 := inodes, blocks, used;
        KeptSelf(inodes, blocks, i, NDIRECT);
        var a: nat := inodes[i].addrs[NDIRECT];
        if a == 0 {
          var got := AllocDirect(i, NDIRECT);
          if got.None? {
            KeptSelf(inodes, blocks, i, SlotOf(bn));
            return OutOfBlocks;
          }
          a := got.value;
        }
        ghost var inodes1, blocks1, used1, logged1 := inodes, blocks, used, logged;
        IndirectAddr(i);
        var addr: nat := Word(blocks[a], bn - NDIRECT);
        KeptSelf(inodes, blocks, i, SlotOf(bn));
        if addr == 0 {
          var got := AllocVia(i, bn - NDIRECT);
          RecordedTrans(logged1, logged, used0, used1, used, blocks0, blocks1, blocks);
          if got.None? {
            return OutOfBlocks;
          }
          return Found(got.value);
        }
        return Found(addr);
      }
      return OutOfRange;
    }

    // Free every block of a file.  The result false would be the panic "freeing free block".
    method Itrunc(i: nat) returns (ok: bool)
      requires Valid() && i < |inodes|
      modifies this
      ensures Valid() && ok
      ensures inodes == old(inodes)[i := Inode(seq(NDIRECT + 1, _ => 0), 0)] && blocks == old(blocks)
      ensures OwnTruncated(old(own), own, i, NSLOTS)
      ensures Recorded(logged, old(used), used, old(blocks), blocks) && InodeBlock(i) in logged && old(logged) <= logged
    {
      hide Slots, Addr, ViaFreed, Recorded;
      ghost var own0, inodes0 := own, inodes;
      RecordedSelf(logged, used, blocks);
      IndirectAddr(i);
      var n := 0;
      while n < NDIRECT
        invariant n <= NDIRECT && Valid() && blocks == old(blocks) && OwnTruncated(own0, own, i, n)
        invariant Recorded(logged, old(used), used, old(blocks), blocks) && old(logged) <= logged
        invariant |inodes| == |inodes0| && forall j :: 0 <= j < |inodes| && j != i ==> inodes[j] == inodes0[j]
        invariant |inodes[i].addrs| == NDIRECT + 1 && forall m :: 0 <= m < n ==> inodes[i].addrs[m] == 0
      {
        TruncStep(inodes, blocks, own0, own, i, n);
        IndirectAddr(i);
        var b: nat := inodes[i].addrs[n];
        if b != 0 {
          Detach(inodes, blocks, own, i, n);
          own := Detached(own, i, n);
          ghost var own1 := own;
          RecordedFree(logged, old(used), used, old(blocks), blocks, b);
          var freed := Bfree(b);
          if !freed {
            return false;
          }
          RetagLoose(WithAddr(inodes, i, n, 0), blocks, own1, b, Free);
          inodes := WithAddr(inodes, i, n, 0);
        }
        n := n + 1;
      }
      IndirectAddr(i);
      TruncIndirect(inodes, blocks, own0, own, i);
      if inodes[i].addrs[NDIRECT] != 0 {
        ghost var used1, logged1 := used, logged;
        var freed := FreeIndirect(i, own0);
        RecordedTrans(logged1, logged, old(used), used1, used, blocks, blocks, blocks);
        if !freed {
          return false;
        }
      }
      assert inodes[i].addrs == seq(NDIRECT + 1, _ => 0);
      SizeFrame(inodes, blocks, own, i, 0);
      RecordedTrans(logged, logged + {InodeBlock(i)}, old(used), used, used, blocks, blocks, blocks);
      inodes := inodes[i := inodes[i].(size := 0)];
      logged := logged + {InodeBlock(i)};
      return true;
    }

    // The second half of itrunc: the blocks listed in the indirect block, and then the
    // indirect block.
    method FreeIndirect(i: nat, ghost own0: seq<Owner>) returns (ok: bool)
      requires Valid() && i < |inodes| && Addr(inodes, blocks, i, NDIRECT) != 0 && OwnTruncated(own0, own, i, NDIRECT)
      modifies this
      ensures Valid() && ok && blocks == old(blocks) && OwnTruncated(own0, own, i, NSLOTS)
      ensures Recorded(logged, old(used), used, old(blocks), blocks) && old(logged) <= logged
      ensures |old(inodes)[i].addrs| == NDIRECT + 1 && inodes == WithAddr(old(inodes), i, NDIRECT, 0)
    {
      hide Slots, Addr, OwnTruncated, Word, Recorded;
      RecordedSelf(logged, used, blocks);
      IndirectAddr(i);
      var a := inodes[i].addrs[NDIRECT];
      ghost var own1 := own;
      ghost var inodes' := WithAddr(inodes, i, NDIRECT, 0);
      Detach(inodes, blocks, own, i, NDIRECT);
      own := Detached(own, i, NDIRECT);
      var j := 0;
      while j < NINDIRECT
        invariant j <= NINDIRECT && ViaFreed(own1, own, i, j) && Bits(used, own) && Slots(inodes', blocks, own)
        invariant inodes == old(inodes) && blocks == old(blocks)
        invariant Recorded(logged, old(used), used, old(blocks), blocks) && old(logged) <= logged
      {
        ViaStep(inodes, blocks, own1, own, i, j);
        ghost var own2 := own;
        var b: nat := Word(blocks[a], j);
        if b != 0 {
          RecordedFree(logged, old(used), used, blocks, blocks, b);
          var freed := Bfree(b);
          if !freed {
            return false;
          }
          RetagLoose(inodes', blocks, own2, b, Free);
        }
        j := j + 1;
      }
      ViaDone(inodes, blocks, own0, own1, own, i);
      RetagLoose(inodes', blocks, own, a, Free);
      RecordedFree(logged, old(used), used, blocks, blocks, a);
      ok := Bfree(a);
      inodes := WithAddr(inodes, i, NDIRECT, 0);
    }

    // One round of writei: find the block and copy into it.
    method WriteBlock(i: nat, off: nat, data: seq<byte>) returns (r: BmapResult)
      requires Valid() && i < |inodes| && off % BSIZE + |data| <= BSIZE
      modifies this
      ensures Valid() && SameSizes(old(inodes), inodes)
      ensures r.OutOfRange? <==> off / BSIZE >= MAXFILE
      ensures r.OutOfBlocks? ==> Full(own)
      ensures AddrKept(old(inodes), old(blocks), inodes, blocks, i, SlotOf(off / BSIZE))
      ensures Tracked(old(logged), logged, old(used), used, old(blocks), blocks, old(inodes), inodes, i)
      ensures r.Found? ==>
        && r.addr in logged
        && BytesWritten(old(inodes), old(blocks), inodes, blocks, i, off, data)
        && Addr(inodes, blocks, i, SlotOf(off / BSIZE)) == r.addr != 0
        && var missing := Addr(old(inodes), old(blocks), i, SlotOf(off / BSIZE)) == 0;
           && RoundLogs(old(logged), logged, r.addr, MapBlock(r.addr), missing, off / BSIZE >= NDIRECT, Ind(i))
    {
      hide Slots, Addr, ByteAt, Bits, Patched;
      ghost var inodes0, blocks0 := inodes, blocks;
      r := Bmap(i, off / BSIZE);
      if !r.Found? {
        return;
      }
      ghost var blocks1 := blocks;
      WriteInBlock(inodes, blocks, own, i, off, data);
      blocks := blocks[r.addr := Patched(blocks[r.addr], off % BSIZE, data)];
      ghost var logged1 := logged;
      logged := logged + {r.addr};
      RecordedTrans(logged1, logged, old(used), used, used, blocks0, blocks1, blocks);
      assert [] + data == data;
    }

    // Write src into a file at off.
    method Writei(i: nat, src: seq<byte>, off: uint) returns (r: WriteResult)
      requires Valid() && i < |inodes| && |src| < UINT_LIMIT
      modifies this
      ensures Valid() && |inodes| == |old(inodes)|
      ensures r.WriteError? <==> off > old(inodes)[i].size || off + |src| > MAXFILE * BSIZE
      ensures r.WriteError? ==>
        inodes == old(inodes) && blocks == old(blocks) && used == old(used) && own == old(own) && logged == old(logged)
      ensures Tracked(old(logged), logged, old(used), used, old(blocks), blocks, old(inodes), inodes, i)
      ensures !r.WritePanic? && inodes[i] != old(inodes)[i] ==> InodeBlock(i) in logged
      ensures r.WritePanic? ==> Full(own)
      ensures r.Wrote? ==>
        && r.count == |src|
        && FileWritten(old(inodes), old(blocks), inodes, blocks, i, off, src)
        && (NoHoles(old(inodes), old(blocks)) ==> NoHoles(inodes, blocks))
        && |logged - old(logged)|
           <= Touched(off, |src|) + Missing(old(inodes), old(blocks), i, off / BSIZE, Touched(off, |src|)) + 3
    {
      hide Slots, Addr, ByteAt, Bits, AddrKept, BytesWritten, NoHoles, Missing, Touched, Round, Contents, Spliced,
           AddrRun, Footprint, Ind, FileWritten, Tracked;
      var n: nat := |src|;
      TrackedSelf(i);
      if off > inodes[i].size || (off + n) % UINT_LIMIT < off {
        return WriteError;
      }
      if (off + n) % UINT_LIMIT > MAXFILE * BSIZE {
        return WriteError;
      }
      ghost var in0, bl0 := inodes, blocks;
      var ok := WriteLoop(i, src, off);
      if !ok {
        return WritePanic;
      }
      FinishWrite(in0, bl0, inodes, blocks, own, i, off, src);
      if n > 0 {
        UpdateInode(old(logged), old(used), bl0, in0, i, off + n);
        inodes := Resized(inodes, i, off + n);
        logged := logged + {InodeBlock(i)};
      }
      return Wrote(n);
    }

    // The loop of writei.  The result false is the panic of balloc.
    method WriteLoop(i: nat, src: seq<byte>, off: uint) returns (ok: bool)
      requires Valid() && i < |inodes| && off + |src| <= MAXFILE * BSIZE
      modifies this
      ensures Valid() && SameSizes(old(inodes), inodes)
      ensures Tracked(old(logged), logged, old(used), used, old(blocks), blocks, old(inodes), inodes, i)
      ensures !ok ==> Full(own)
      ensures |src| == 0 ==> inodes == old(inodes)
      ensures ok ==>
        && BytesWritten(old(inodes), old(blocks), inodes, blocks, i, off, src)
        && AddrRun(old(inodes), old(blocks), inodes, blocks, i, off / BSIZE, Touched(off, |src|))
        && var bound := Touched(off, |src|) + Missing(old(inodes), old(blocks), i, off / BSIZE, Touched(off, |src|))
             + 3;
           |logged + {InodeBlock(i)} - old(logged)| <= bound && |logged - old(logged)| <= bound
    {
      hide Slots, Addr, ByteAt, Bits, SameSizes, AddrKept, BytesWritten, Missing, Touched, AddrRun, Footprint, Ind,
           RoundLogs, Full, Piece, SlotOf, Tracked;
      var n: nat := |src|;
      ghost var in0, bl0, used0, logged0, lo, t := inodes, blocks, used, logged, off / BSIZE, 0;
      TrackedSelf(i);
      ghost var s: set<nat>, x: set<nat> := {}, {};
      ghost var count := Missing(in0, bl0, i, lo, 0);
      StartWrite(i, off, src);
      var tot := 0;
      while tot < n
        invariant tot <= n && Round(off, n, tot, t) && Valid() && SameSizes(in0, inodes) && |inodes| == |in0|
        invariant BytesWritten(in0, bl0, inodes, blocks, i, off, src[..tot])
        invariant AddrRun(in0, bl0, inodes, blocks, i, lo, t)
        invariant count == t + Missing(in0, bl0, i, lo, t)
        invariant Footprint(logged0, logged, s, x, count, Ind(i))
        invariant Tracked(logged0, logged, used0, used, bl0, blocks, in0, inodes, i)
        invariant tot == 0 ==> inodes == in0
        decreases n - tot
      {
        ghost var in1, bl1, used1, logged1, ind1 := inodes, blocks, used, logged, Ind(i);
        IndAt(i);
        var p := off + tot;
        var m := Piece(p, n - tot);
        RoundStep(off, n, tot, t);
        ghost var missing := Addr(inodes, blocks, i, SlotOf(p / BSIZE)) == 0;
        var w := WriteBlock(i, p, src[tot..tot + m]);
        SizesTrans(in0, in1, inodes);
        TrackedTrans(logged0, logged1, logged, used0, used1, used, bl0, bl1, blocks, in0, in1, inodes, i);
        if !w.Found? {
          return false;
        }
        IndAt(i);
        WriteRound(in0, bl0, in1, bl1, inodes, blocks, i, off, src, tot, m, lo, t);
        FootprintKind(logged0, logged1, s, x, count, ind1);
        s, x := FootprintStep(logged0, logged1, logged, s, x, count, ind1, Ind(i), w.addr, MapBlock(w.addr), missing,
                              p / BSIZE >= NDIRECT);
        count := count + if missing then 2 else 1;
        tot := tot + m;
        t := t + 1;
      }
      IndAt(i);
      FootprintBound(logged0, logged, s, x, count, Ind(i), InodeBlock(i));
      assert src[..n] == src;
      RoundEnd(off, n, t);
      return true;
    }

    lemma IndAt(i: nat)
      ensures var a := Addr(inodes, blocks, i, NDIRECT);
        |Ind(i)| <= 2 && Ind(i) == if a == 0 then {} else {a, MapBlock(a)}
    {
    }

    lemma StartWrite(i: nat, off: nat, src: seq<byte>)
      requires i < |inodes|
      ensures Round(off, |src|, 0, 0) && SameSizes(inodes, inodes)
      ensures BytesWritten(inodes, blocks, inodes, blocks, i, off, src[..0])
      ensures AddrRun(inodes, blocks, inodes, blocks, i, off / BSIZE, 0)
      ensures Missing(inodes, blocks, i, off / BSIZE, 0) == 0
      ensures Footprint(logged, logged, {}, {}, 0, Ind(i))
    {
      hide Addr, ByteAt;
      assert src[..0] == [];
    }

    // The indirect block of a file and its bitmap block.
    ghost function Ind(i: nat): set<nat>
      reads this
    {
      var a := Addr(inodes, blocks, i, NDIRECT);
      if a == 0 then {} else {a, MapBlock(a)}
    }

    // Read up to n bytes of a file, of the given type, from off on.
    method Readi(i: nat, kind: FileType, off0: uint, n0: uint) returns (r: ReadResult)
      requires Valid() && i < |inodes|
      modifies this
      ensures Valid() && SameSizes(old(inodes), inodes) && SameBytes(old(inodes), old(blocks), inodes, blocks)
      ensures r.ReadError? <==> kind == Unused || kind == Device
      ensures r.ReadError? ==>
        inodes == old(inodes) && blocks == old(blocks) && used == old(used) && own == old(own) && logged == old(logged)
      ensures r.ReadPanic? ==> Full(own) && !NoHoles(old(inodes), old(blocks))
      ensures r.Got? ==>
        var s := Contents(old(inodes), old(blocks), i);
        r.data == if off0 > |s| || off0 + n0 >= UINT_LIMIT then []
                  else if off0 + n0 > |s| then s[off0..] else s[off0..off0 + n0]
      ensures NoHoles(old(inodes), old(blocks)) ==> logged == old(logged)
    {
      hide Slots, Addr, ByteAt, Bits, AddrKept, SameBytes, SameSizes, NoHoles, Full;
      KeptSelf(inodes, blocks, i, 0);
      if !(kind == Plain || kind == Symlink || kind == Directory) {
        return ReadError;
      }
      if off0 > inodes[i].size || (off0 + n0) % UINT_LIMIT < off0 {
        return Got([]);
      }
      var n: nat := if (off0 + n0) % UINT_LIMIT > inodes[i].size then inodes[i].size - off0 else n0;
      ghost var in0, bl0 := inodes, blocks;
      var off: nat := off0;
      var data := [];
      while |data| < n
        invariant |data| <= n && off == off0 + |data| && Valid() && |inodes| == |in0|
        invariant SameSizes(in0, inodes) && SameBytes(in0, bl0, inodes, blocks)
        invariant forall k :: 0 <= k < |data| ==> data[k] == ByteAt(in0, bl0, i, off0 + k)
        invariant NoHoles(in0, bl0) ==> logged == old(logged) && NoHoles(inodes, blocks)
        decreases n - |data|
      {
        ghost var in1, bl1 := inodes, blocks;
        SlotsShape();
        InFile(in0, inodes, blocks, i, off);
        var a := Bmap(i, off / BSIZE);
        SizesTrans(in0, in1, inodes);
        SameBytesTrans(in0, bl0, in1, bl1, inodes, blocks);
        HolesKept(in1, bl1, inodes, blocks, i, SlotOf(off / BSIZE));
        if !a.Found? {
          return ReadPanic;
        }
        var m := Piece(off, n - |data|);
        var chunk := blocks[a.addr].bytes[off % BSIZE..off % BSIZE + m];
        ChunkBytes(in0, bl0, inodes, blocks, i, off, m, chunk);
        data := data + chunk;
        off := off + m;
      }
      return Got(data);
    }

    // log has every block that a change of the file system by a write to inode i is on.
    ghost predicate Transaction(log: set<nat>, s0: Snapshot, s1: Snapshot, i: nat) {
      && Tracked({}, log, s0.used, s1.used, s0.blocks, s1.blocks, s0.inodes, s1.inodes, i)
      && (i < |s0.inodes| && s1.inodes[i] != s0.inodes[i] ==> InodeBlock(i) in log)
    }

    // Write src to an open file in chunks, each in a log transaction of its own.
    method Filewrite(i: nat, src: seq<byte>, off0: uint)
      returns (r: FileResult, off: nat, ghost ops: seq<set<nat>>, ghost states: seq<Snapshot>)
      requires Valid() && i < |inodes| && NoHoles(inodes, blocks)
      requires |src| < INT_LIMIT
      modifies this
      ensures Valid() && |inodes| == |old(inodes)| && |src| >= off - off0 >= 0
      ensures |states| == |ops| + 1 && states[0] == Snapshot(old(used), old(inodes), old(blocks))
      ensures forall t :: 0 <= t < |ops| ==> |ops[t]| <= MAXOPBLOCKS && Transaction(ops[t], states[t], states[t + 1], i)
      ensures !r.FilePanic? ==> states[|ops|] == Snapshot(used, inodes, blocks)
      ensures r.FilePanic? ==> Full(own)
      ensures !r.FilePanic? ==>
        && NoHoles(inodes, blocks)
        && FileWritten(old(inodes), old(blocks), inodes, blocks, i, off0, src[..off - off0])
      ensures r.FileOk? ==> r.count == |src| == off - off0
      ensures r.FileError? ==>
        off0 > old(inodes)[i].size || (off < off0 + |src| && off + Min(|src| - (off - off0), CHUNK) > MAXFILE * BSIZE)
    {
      hide Slots, Bits, ByteAt, Addr, NoHoles, Contents, Spliced, Full, Missing, Touched, FileWritten, Tracked;
      var n := |src|;
      off, ops, states := off0, [], [Snapshot(used, inodes, blocks)];
      var k := 0;
      ghost var in0, bl0 := inodes, blocks;
      assert src[..0] == [];
      FileWrittenNone(inodes, blocks, i, off0);
      while k < n
        invariant 0 <= k <= n && off == off0 + k < UINT_LIMIT && Valid() && |inodes| == |in0| && NoHoles(inodes, blocks)
        invariant |states| == |ops| + 1 && states[0] == Snapshot(old(used), in0, bl0)
        invariant states[|ops|] == Snapshot(used, inodes, blocks)
        invariant forall t :: 0 <= t < |ops| ==>
          |ops[t]| <= MAXOPBLOCKS && Transaction(ops[t], states[t], states[t + 1], i)
        invariant FileWritten(in0, bl0, inodes, blocks, i, off0, src[..k])
        decreases n - k
      {
        ghost var in1, bl1 := inodes, blocks;
        FileWrittenEnd(in0, bl0, inodes, blocks, i, off0, src[..k]);
        var n1 := Min(n - k, CHUNK);
        logged := {};                              // begin_op
        var w := Writei(i, src[k..k + n1], off);
        if w.WritePanic? {
          return FilePanic, off, ops, states;
        }
        if w.WriteError? {
          return FileError, off, ops, states;
        }
        ChunkLimit(in1, bl1, i, off, n1);
        ops := ops + [logged];                     // end_op
        states := states + [Snapshot(used, inodes, blocks)];
        FileWrittenStep(in0, bl0, in1, bl1, inodes, blocks, i, off0, src, k, n1);
        off := off + n1;
        k := k + n1;
      }
      return FileOk(n), off, ops, states;
    }
  }
}
