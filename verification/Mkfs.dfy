// The image that mkfs/mkfs.c builds: blocks and inodes are handed out in order, and the
// bitmap is written last.  It is the first state of FileSystem.
module Mkfs {
  import opened Wrappers
  import opened Blocks
  import opened Inodes
  import opened FileSystem

  const NINODES: nat := 200
  const NBITMAP: nat := LOGICAL_DISK_SIZE / BPB + 1
  const NINODEBLOCKS: nat := NINODES / IPB + 1
  const NMETA: nat := 2 + LOGSIZE + NINODEBLOCKS + NBITMAP

  predicate IsZero(b: Block) {
    forall k :: 0 <= k < BSIZE ==> b.bytes[k] == 0
  }

  lemma ZeroBlock(b: Block)
    requires IsZero(b)
    ensures b == ZERO_BLOCK
  {
    assert b.bytes == ZERO_BLOCK.bytes;
  }

  // Blocks below the counter belong to metadata or to a file, those above are free and
  // zero.
  ghost predicate Handed(freeblock: nat, blocks: seq<Block>, own: seq<Owner>) {
    && |blocks| == |own| && freeblock <= |own|
    && (forall b: nat :: b < |own| ==> (b < freeblock <==> own[b] != Free))
    && (forall b: nat :: freeblock <= b < |own| ==> IsZero(blocks[b]))
  }

  // A file has exactly the blocks its first `end` bytes need.
  ghost predicate Exact(inodes: seq<Inode>, blocks: seq<Block>, i: nat, end: nat) {
    forall bn: nat :: Addr(inodes, blocks, i, SlotOf(bn)) != 0 <==> bn * BSIZE < end
  }

  ghost predicate AllExact(inodes: seq<Inode>, blocks: seq<Block>) {
    forall i: nat :: i < |inodes| ==> Exact(inodes, blocks, i, inodes[i].size)
  }

  // Rounding the root directory up to a whole number of blocks makes a hole exactly when
  // it was a whole number of blocks already.
  lemma RoundedRoot(inodes: seq<Inode>, blocks: seq<Block>, i: nat, own: seq<Owner>)
    requires Slots(inodes, blocks, own) && AllExact(inodes, blocks) && i < |inodes|
    requires (inodes[i].size / BSIZE + 1) * BSIZE <= MAXFILE * BSIZE
    ensures var inodes' := inodes[i := inodes[i].(size := (inodes[i].size / BSIZE + 1) * BSIZE)];
      && Slots(inodes', blocks, own)
      && (NoHoles(inodes', blocks) <==> inodes[i].size % BSIZE != 0)
  {
    var off := inodes[i].size;
    var end := (off / BSIZE + 1) * BSIZE;
    var inodes' := inodes[i := inodes[i].(size := end)];
    SizeFrame(inodes, blocks, own, i, end);
    hide Slots;
    assert Exact(inodes, blocks, i, off);
    if off % BSIZE == 0 {
      assert Addr(inodes', blocks, i, SlotOf(off / BSIZE)) == 0;
      assert off / BSIZE * BSIZE < end;
    } else {
      forall j: nat, bn: nat | j < |inodes'| && bn * BSIZE < inodes'[j].size
        ensures Addr(inodes', blocks, j, SlotOf(bn)) != 0
      {
        assert Exact(inodes, blocks, j, inodes[j].size);
        if j == i {
          assert bn <= off / BSIZE;
        }
      }
    }
  }

  // The next block, already zero, goes into a slot of the inode itself.
  lemma HandDirect(freeblock: nat, inodes: seq<Inode>, blocks: seq<Block>, own: seq<Owner>, i: nat, n: nat)
    requires Slots(inodes, blocks, own) && Handed(freeblock, blocks, own) && 0 < freeblock < |own|
    requires i < |inodes| && n <= NDIRECT && Addr(inodes, blocks, i, n) == 0
    ensures |inodes[i].addrs| == NDIRECT + 1 && freeblock < UINT_LIMIT
    ensures var inodes', own' := WithAddr(inodes, i, n, freeblock), own[freeblock := Slot(i, n)];
      && Slots(inodes', blocks, own') && Handed(freeblock + 1, blocks, own') && Addr(inodes', blocks, i, n) == freeblock
      && AddrKept(inodes, blocks, inodes', blocks, i, n) && SameBytes(inodes, blocks, inodes', blocks)
      && SameSizes(inodes, inodes')
  {
    hide Addr, ByteAt;
    ZeroBlock(blocks[freeblock]);
    assert blocks[freeblock := ZERO_BLOCK] == blocks;
    FillDirect(inodes, blocks, own, i, n, freeblock);
  }

  lemma HandVia(freeblock: nat, inodes: seq<Inode>, blocks: seq<Block>, own: seq<Owner>, i: nat, j: nat)
    requires Slots(inodes, blocks, own) && Handed(freeblock, blocks, own) && 0 < freeblock < |own|
    requires i < |inodes| && j < NINDIRECT
    requires Addr(inodes, blocks, i, NDIRECT) != 0 && Addr(inodes, blocks, i, NDIRECT + 1 + j) == 0
    ensures freeblock < UINT_LIMIT
    ensures var a, n := Addr(inodes, blocks, i, NDIRECT), NDIRECT + 1 + j;
      && a < |blocks|
      && var blocks', own' := blocks[a := SetWord(blocks[a], j, freeblock)], own[freeblock := Slot(i, n)];
         && Slots(inodes, blocks', own') && Handed(freeblock + 1, blocks', own')
              && Addr(inodes, blocks', i, n) == freeblock
         && AddrKept(inodes, blocks, inodes, blocks', i, n) && SameBytes(inodes, blocks, inodes, blocks')
  {
    hide ByteAt, Word, SetWord, ListedBlock;
    ZeroBlock(blocks[freeblock]);
    assert blocks[freeblock := ZERO_BLOCK] == blocks;
    FillVia(inodes, blocks, own, i, j, freeblock);
    assert own[Addr(inodes, blocks, i, NDIRECT)] == Slot(i, NDIRECT);
  }

  // Appending within one block.
  lemma ExactStep(in0: seq<Inode>, bl0: seq<Block>, in1: seq<Inode>, bl1: seq<Block>, i: nat, off: nat, m: nat)
    requires AddrKept(in0, bl0, in1, bl1, i, SlotOf(off / BSIZE)) && Addr(in1, bl1, i, SlotOf(off / BSIZE)) != 0
    requires Exact(in0, bl0, i, off) && 0 < m && off % BSIZE + m <= BSIZE
    ensures Exact(in1, bl1, i, off + m)
  {
    hide Addr;
    forall bn: nat ensures Addr(in1, bl1, i, SlotOf(bn)) != 0 <==> bn * BSIZE < off + m {
      assert bn * BSIZE < off + m <==> bn <= off / BSIZE;
      assert bn * BSIZE < off ==> bn <= off / BSIZE;
    }
  }

  // The other files keep their blocks.
  ghost predicate OthersExact(inodes: seq<Inode>, blocks: seq<Block>, i: nat) {
    forall j: nat :: j < |inodes| && j != i ==> Exact(inodes, blocks, j, inodes[j].size)
  }

  lemma OthersStep(in0: seq<Inode>, bl0: seq<Block>, in1: seq<Inode>, bl1: seq<Block>, i: nat, n: nat)
    requires AddrKept(in0, bl0, in1, bl1, i, n) && SameSizes(in0, in1) && OthersExact(in0, bl0, i)
    ensures OthersExact(in1, bl1, i)
  {
    hide Addr;
    forall j: nat | j < |in1| && j != i ensures Exact(in1, bl1, j, in1[j].size) {
      assert Exact(in0, bl0, j, in0[j].size);
    }
  }

  lemma StartAppend(inodes: seq<Inode>, blocks: seq<Block>, i: nat, data: seq<byte>)
    requires i < |inodes| && AllExact(inodes, blocks)
    ensures SameSizes(inodes, inodes) && BytesWritten(inodes, blocks, inodes, blocks, i, inodes[i].size, data[..0])
    ensures Exact(inodes, blocks, i, inodes[i].size) && OthersExact(inodes, blocks, i)
  {
    hide Exact;
    assert data[..0] == [];
  }

  // The size goes up to the end of what has been appended.
  lemma FinishAppend(in0: seq<Inode>, bl0: seq<Block>, in1: seq<Inode>, bl1: seq<Block>, own: seq<Owner>, i: nat,
                     data: seq<byte>)
    requires Slots(in1, bl1, own) && SameSizes(in0, in1) && i < |in0|
    requires BytesWritten(in0, bl0, in1, bl1, i, in0[i].size, data)
    requires Exact(in1, bl1, i, in0[i].size + |data|) && OthersExact(in1, bl1, i)
    ensures var in2 := in1[i := in1[i].(size := in0[i].size + |data|)];
      Slots(in2, bl1, own) && AllExact(in2, bl1) && FileWritten(in0, bl0, in2, bl1, i, in0[i].size, data)
  {
    hide Slots, ByteAt, Contents;
    var off := in0[i].size;
    var in2 := in1[i := in1[i].(size := off + |data|)];
    ExactBound(in1, bl1, own, i, off + |data|);
    SizeFrame(in1, bl1, own, i, off + |data|);
    forall j: nat | j < |in2| ensures Exact(in2, bl1, j, in2[j].size) {
      if j != i {
        assert Exact(in1, bl1, j, in1[j].size);
      }
    }
    forall j: nat | j < |in2|
      ensures Contents(in2, bl1, j)
           == if j == i && data != [] then Spliced(Contents(in0, bl0, j), off, data) else Contents(in0, bl0, j)
    {
      WrittenContents(in0, bl0, in2, bl1, i, off, data, j);
    }
  }

  // What a file holds fits its slots.
  lemma ExactBound(inodes: seq<Inode>, blocks: seq<Block>, own: seq<Owner>, i: nat, end: nat)
    requires Slots(inodes, blocks, own) && Exact(inodes, blocks, i, end)
    ensures end <= MAXFILE * BSIZE
  {
    hide Slots;
    assert Addr(inodes, blocks, i, SlotOf(MAXFILE)) == 0;
  }

  lemma FreshImage(inodes: seq<Inode>, blocks: seq<Block>, own: seq<Owner>)
    requires forall i :: 0 <= i < |inodes| ==> inodes[i] == Inode(seq(NDIRECT + 1, _ => 0), 0)
    requires |blocks| == |own| == LOGICAL_DISK_SIZE && forall b :: 0 <= b < |blocks| ==> IsZero(blocks[b])
    requires forall b :: 0 <= b < |own| ==> own[b] == if b < NMETA then Meta else Free
    ensures Slots(inodes, blocks, own) && Handed(NMETA, blocks, own) && AllExact(inodes, blocks)
  {
    forall i: nat, n: nat ensures Addr(inodes, blocks, i, n) == 0 {
    }
  }

  class Image {
    var freeblock: nat
    var freeinode: nat
    var inodes: seq<Inode>
    var blocks: seq<Block>
    ghost var own: seq<Owner>

    ghost predicate Consistent()
      reads this
    {
      Slots(inodes, blocks, own) && Handed(freeblock, blocks, own) && NMETA <= freeblock
    }

    ghost predicate Valid()
      reads this
    {
      Consistent() && AllExact(inodes, blocks) && forall i: nat :: freeinode <= i < |inodes| ==> inodes[i].size == 0
    }

    // An image with nothing but metadata.
    constructor ()
      ensures Valid() && freeblock == NMETA && freeinode == 1
      ensures |inodes| == NINODES && forall i :: 0 <= i < NINODES ==> inodes[i].size == 0
    {
      freeblock, freeinode := NMETA, 1;
      inodes := seq(NINODES, _ => Inode(seq(NDIRECT + 1, _ => 0), 0));
      blocks := seq(LOGICAL_DISK_SIZE, _ => ZERO_BLOCK);
      own := seq(LOGICAL_DISK_SIZE, b => if b < NMETA then Meta else Free);
      new;
      hide *;
      FreshImage(inodes, blocks, own);
    }

    // The next inode, empty.
    method Ialloc() returns (i: nat)
      requires Valid() && freeinode < |inodes|
      modifies `freeinode
      ensures Valid() && i == old(freeinode) && freeinode == i + 1
      ensures Contents(inodes, blocks, i) == []
    {
      i := freeinode;
      freeinode := freeinode + 1;
    }

    // The block for block bn of a file, as iappend finds or takes it.  None means that the
    // file or the logical disk is full; only the first is checked by mkfs.
    method BlockFor(i: nat, bn: nat) returns (r: Option<nat>)
      requires Consistent() && i < |inodes|
      modifies `freeblock, `inodes, `blocks, `own
      ensures Consistent() && SameSizes(old(inodes), inodes)
      ensures SameBytes(old(inodes), old(blocks), inodes, blocks)
      ensures AddrKept(old(inodes), old(blocks), inodes, blocks, i, SlotOf(bn))
      ensures r.None? ==> bn >= MAXFILE || freeblock == |blocks|
      ensures r.Some? ==> 0 < r.value < freeblock <= |blocks| && Addr(inodes, blocks, i, SlotOf(bn)) == r.value
    {
      hide Slots, Addr, ByteAt, Handed, Word, SetWord;
      ghost var in0, bl0 := inodes, blocks;
      KeptSelf(inodes, blocks, i, SlotOf(bn));
      Shape(i);
      if bn >= MAXFILE {
        return None;
      }
      if bn < NDIRECT {
        if inodes[i].addrs[bn] == 0 {
          if freeblock == |blocks| {
            return None;
          }
          HandDirect(freeblock, inodes, blocks, own, i, bn);
          inodes, own := WithAddr(inodes, i, bn, freeblock), own[freeblock := Slot(i, bn)];
          freeblock := freeblock + 1;
        }
        Shape(i);
        return Some(inodes[i].addrs[bn]);
      }
      KeptSelf(inodes, blocks, i, NDIRECT);
      if inodes[i].addrs[NDIRECT] == 0 {
        if freeblock == |blocks| {
          return None;
        }
        HandDirect(freeblock, inodes, blocks, own, i, NDIRECT);
        inodes, own := WithAddr(inodes, i, NDIRECT, freeblock), own[freeblock := Slot(i, NDIRECT)];
        freeblock := freeblock + 1;
      }
      Shape(i);
      ghost var in1, bl1 := inodes, blocks;
      KeptSelf(inodes, blocks, i, SlotOf(bn));
      var a: nat := inodes[i].addrs[NDIRECT];
      if Word(blocks[a], bn - NDIRECT) == 0 {
        if freeblock == |blocks| {
          return None;
        }
        HandVia(freeblock, inodes, blocks, own, i, bn - NDIRECT);
        blocks, own := blocks[a := SetWord(blocks[a], bn - NDIRECT, freeblock)], own[freeblock := Slot(i, SlotOf(bn))];
        freeblock := freeblock + 1;
      }
      Shape(i);
      return Some(Word(blocks[a], bn - NDIRECT));
    }

    lemma Shape(i: nat)
      requires Consistent() && i < |inodes|
      ensures 0 < freeblock <= |blocks| == |own| <= UINT_LIMIT && |inodes[i].addrs| == NDIRECT + 1
      ensures forall n: nat :: n <= NDIRECT ==> inodes[i].addrs[n] == Addr(inodes, blocks, i, n)
      ensures forall n: nat :: Addr(inodes, blocks, i, n) < freeblock
      ensures var a := Addr(inodes, blocks, i, NDIRECT);
        a != 0 ==> forall j: nat :: j < NINDIRECT ==> Addr(inodes, blocks, i, NDIRECT + 1 + j) == Word(blocks[a], j)
    {
      hide Word;
      forall n: nat ensures Addr(inodes, blocks, i, n) < freeblock {
      }
    }

    // Append to a file.  The result false is the assertion on the file size, or a logical
    // disk that is too small.
    method Iappend(i: nat, data: seq<byte>) returns (ok: bool)
      requires Valid() && i < |inodes| && i < freeinode
      modifies this
      ensures freeinode == old(freeinode) && |inodes| == |old(inodes)|
      ensures ok ==> Valid() && FileWritten(old(inodes), old(blocks), inodes, blocks, i, old(inodes)[i].size, data)
      ensures !ok ==> old(inodes)[i].size + |data| > MAXFILE * BSIZE || freeblock == |blocks|
    {
      hide Slots, ByteAt, Patched, Exact, OthersExact, FileWritten, AllExact;
      ghost var in0, bl0, off0 := inodes, blocks, inodes[i].size;
      StartAppend(inodes, blocks, i, data);
      var off, n := inodes[i].size, 0;
      while n < |data|
        invariant n <= |data| && off == off0 + n && freeinode == old(freeinode)
        invariant Consistent() && SameSizes(in0, inodes) && |inodes| == |in0|
        invariant BytesWritten(in0, bl0, inodes, blocks, i, off0, data[..n])
        invariant Exact(inodes, blocks, i, off) && OthersExact(inodes, blocks, i)
        decreases |data| - n
      {
        ghost var in1, bl1 := inodes, blocks;
        var x := BlockFor(i, off / BSIZE);
        SizesTrans(in0, in1, inodes);
        if x.None? {
          return false;
        }
        ghost var in2, bl2 := inodes, blocks;
        var m := Piece(off, |data| - n);
        WriteInBlock(inodes, blocks, own, i, off, data[n..n + m]);
        blocks := blocks[x.value := Patched(blocks[x.value], off % BSIZE, data[n..n + m])];
        assert data[..n] + data[n..n + m] == data[..n + m];
        ExactStep(in1, bl1, inodes, blocks, i, off, m);
        OthersStep(in1, bl1, inodes, blocks, i, SlotOf(off / BSIZE));
        n := n + m;
        off := off + m;
      }
      assert data[..n] == data;
      FinishAppend(in0, bl0, inodes, blocks, own, i, data);
      inodes := inodes[i := inodes[i].(size := off)];
      return true;
    }

    // The end of main: round the size of the root directory up and write the bitmap.  The
    // result can be mounted; it has a hole if the directory filled its blocks exactly.
    method Finish(root: nat) returns (fs: FileSystem)
      requires Valid() && root < |inodes| && (inodes[root].size / BSIZE + 1) * BSIZE <= MAXFILE * BSIZE
      modifies this
      ensures fs.Valid() && fs.inodes == inodes && fs.blocks == blocks && fs.own == own
      ensures NoHoles(inodes, blocks) <==> old(inodes)[root].size % BSIZE != 0
      ensures forall b: nat :: b < |fs.used| ==> (fs.used[b] <==> b < freeblock)
    {
      hide Slots, Addr, NoHoles, AllExact;
      RoundedRoot(inodes, blocks, root, own);
      inodes := inodes[root := inodes[root].(size := (inodes[root].size / BSIZE + 1) * BSIZE)];
      var bits := seq(|blocks|, _ => false);
      for b := 0 to freeblock
        invariant |bits| == |blocks| && unchanged(`freeblock, `blocks, `own)
        invariant inodes == old(inodes)[root :=
                                        old(inodes)[root].(size := (old(inodes)[root].size / BSIZE + 1) * BSIZE)]
        invariant forall c: nat :: c < |bits| ==> (bits[c] <==> c < b)
      {
        bits := bits[b := true];
      }
      fs := new FileSystem(2 + LOGSIZE + NINODEBLOCKS, 2 + LOGSIZE, bits, inodes, blocks, own);
    }
  }
}
