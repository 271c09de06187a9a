// Inodes and their blocks (kernel/fs.c) over the logical block map that the log keeps.
//
// A ghost sequence `own` gives every block one owner: the free space, the metadata area,
// an operation that has just allocated it, or one slot of one inode.
module Inodes {
  import opened Blocks

  const NDIRECT: nat := 12
  const NINDIRECT: nat := WORDS
  const MAXFILE: nat := NDIRECT + NINDIRECT
  const NSLOTS: nat := NDIRECT + 1 + NINDIRECT

  datatype Inode = Inode(addrs: seq<uint>, size: nat)

  // Slot n of an inode: a direct block, the indirect block (n == NDIRECT), or a block
  // listed in the indirect block.
  datatype Owner = Free | Meta | Held | Slot(inum: nat, n: nat)

  // The slot of the bn-th block of a file.
  function SlotOf(bn: nat): nat {
    if bn < NDIRECT then bn else bn + 1
  }

  // The block number in a slot; 0 if there is none.
  function Addr(inodes: seq<Inode>, blocks: seq<Block>, i: nat, n: nat): nat {
    if i >= |inodes| || n >= NSLOTS || |inodes[i].addrs| != NDIRECT + 1 then 0
    else if n <= NDIRECT then inodes[i].addrs[n]
    else ListedBlock(blocks, inodes[i].addrs[NDIRECT], n - NDIRECT - 1)
  }

  // Entry j of the indirect block a.
  function ListedBlock(blocks: seq<Block>, a: nat, j: nat): nat
    requires j < NINDIRECT
  {
    if a == 0 || a >= |blocks| then 0 else Word(blocks[a], j)
  }

  ghost predicate Wf(inodes: seq<Inode>) {
    forall i :: 0 <= i < |inodes| ==> |inodes[i].addrs| == NDIRECT + 1 && inodes[i].size <= MAXFILE * BSIZE
  }

  // A bit is set exactly for the blocks that are not free.
  ghost predicate Bits(used: seq<bool>, own: seq<Owner>) {
    |used| == |own| && forall b: nat :: b < |own| ==> (used[b] <==> own[b] != Free)
  }

  // Slots and owners agree: a block is in at most one slot.
  ghost predicate Slots(inodes: seq<Inode>, blocks: seq<Block>, own: seq<Owner>) {
    && Wf(inodes) && |blocks| == |own| && 0 < |own| <= UINT_LIMIT && own[0] == Meta
    && (forall i: nat, n: nat :: Addr(inodes, blocks, i, n) != 0 ==>
          Addr(inodes, blocks, i, n) < |own| && own[Addr(inodes, blocks, i, n)] == Slot(i, n))
    && (forall b: nat :: b < |own| && own[b].Slot? ==> Addr(inodes, blocks, own[b].inum, own[b].n) == b)
  }

  // Byte k of the file of inode i; a block that is not there reads as zeros.
  function ByteAt(inodes: seq<Inode>, blocks: seq<Block>, i: nat, k: nat): byte {
    var a := Addr(inodes, blocks, i, SlotOf(k / BSIZE));
    if a == 0 || a >= |blocks| then 0 else blocks[a].bytes[k % BSIZE]
  }

  ghost predicate SameBytes(inodes: seq<Inode>, blocks: seq<Block>, inodes': seq<Inode>, blocks': seq<Block>) {
    forall i: nat, k: nat :: ByteAt(inodes', blocks', i, k) == ByteAt(inodes, blocks, i, k)
  }

  ghost predicate SameSizes(inodes: seq<Inode>, inodes': seq<Inode>) {
    |inodes'| == |inodes| && forall i :: 0 <= i < |inodes| ==> inodes'[i].size == inodes[i].size
  }

  // ---- single updates ----

  lemma RetagLoose(inodes: seq<Inode>, blocks: seq<Block>, own: seq<Owner>, b: nat, o: Owner)
    requires Slots(inodes, blocks, own) && b < |own| && !own[b].Slot? && !o.Slot? && own[b] != Meta
    ensures Slots(inodes, blocks, own[b := o])
  {
    hide Addr;
  }

  // Overwriting a block that is nobody's indirect block changes no address.
  lemma AddrFrame(inodes: seq<Inode>, blocks: seq<Block>, own: seq<Owner>, b: nat, data: Block)
    requires Slots(inodes, blocks, own) && b < |own| && !(own[b].Slot? && own[b].n == NDIRECT)
    ensures forall i: nat, n: nat :: Addr(inodes, blocks[b := data], i, n) == Addr(inodes, blocks, i, n)
  {
    hide Word;
    forall i: nat, n: nat ensures Addr(inodes, blocks[b := data], i, n) == Addr(inodes, blocks, i, n) {
      if i < |inodes| && NDIRECT < n < NSLOTS {
        assert Addr(inodes, blocks, i, NDIRECT) == inodes[i].addrs[NDIRECT];
      }
    }
  }

  lemma SlotsFrame(inodes: seq<Inode>, blocks: seq<Block>, own: seq<Owner>, b: nat, data: Block)
    requires Slots(inodes, blocks, own) && b < |own| && !(own[b].Slot? && own[b].n == NDIRECT)
    ensures Slots(inodes, blocks[b := data], own)
  {
    hide Addr;
    AddrFrame(inodes, blocks, own, b, data);
  }

  lemma BytesFrame(inodes: seq<Inode>, blocks: seq<Block>, own: seq<Owner>, b: nat, data: Block)
    requires Slots(inodes, blocks, own) && b < |own| && !own[b].Slot?
    ensures SameBytes(inodes, blocks, inodes, blocks[b := data])
  {
    hide Addr;
    AddrFrame(inodes, blocks, own, b, data);
  }

  // The addresses after block b has gone into slot (i, n).
  ghost predicate AddrSet(inodes: seq<Inode>, blocks: seq<Block>, inodes': seq<Inode>, blocks': seq<Block>,
                          i: nat, n: nat, b: nat) {
    forall i': nat, n': nat ::
      Addr(inodes', blocks', i', n') == if i' == i && n' == n then b else Addr(inodes, blocks, i', n')
  }

  lemma SlotsSet(inodes: seq<Inode>, blocks: seq<Block>, own: seq<Owner>, inodes': seq<Inode>, blocks': seq<Block>,
                 i: nat, n: nat, b: nat)
    requires Slots(inodes, blocks, own) && 0 < b < |own| && own[b] == Held && Addr(inodes, blocks, i, n) == 0
    requires Wf(inodes') && |blocks'| == |blocks| && AddrSet(inodes, blocks, inodes', blocks', i, n, b)
    ensures Slots(inodes', blocks', own[b := Slot(i, n)])
  {
    hide Addr;
    var own' := own[b := Slot(i, n)];
    forall c: nat | c < |own'| && own'[c].Slot? ensures Addr(inodes', blocks', own'[c].inum, own'[c].n) == c {
      if c != b {
        assert Addr(inodes, blocks, own[c].inum, own[c].n) == c;
      }
    }
  }

  function WithAddr(inodes: seq<Inode>, i: nat, n: nat, b: uint): seq<Inode>
    requires i < |inodes| && n < |inodes[i].addrs|
  {
    inodes[i := inodes[i].(addrs := inodes[i].addrs[n := b])]
  }

  // A block goes into an empty direct slot, or, zeroed, becomes the indirect block.
  lemma SetDirect(inodes: seq<Inode>, blocks: seq<Block>, own: seq<Owner>, i: nat, n: nat, b: nat)
    requires Slots(inodes, blocks, own) && i < |inodes| && n <= NDIRECT && Addr(inodes, blocks, i, n) == 0
    requires 0 < b < |own| && own[b] == Held && (n == NDIRECT ==> blocks[b] == ZERO_BLOCK)
    ensures var inodes' := WithAddr(inodes, i, n, b);
      AddrSet(inodes, blocks, inodes', blocks, i, n, b) && Slots(inodes', blocks, own[b := Slot(i, n)])
  {
    var inodes' := WithAddr(inodes, i, n, b);
    assert inodes[i].addrs[n] == 0;
    forall i': nat, n': nat
      ensures Addr(inodes', blocks, i', n') == if i' == i && n' == n then b else Addr(inodes, blocks, i', n')
    {
      if i' == i && n == NDIRECT < n' < NSLOTS {
      }
    }
    SlotsSet(inodes, blocks, own, inodes', blocks, i, n, b);
  }

  // A block goes into an empty entry of the indirect block.
  lemma SetVia(inodes: seq<Inode>, blocks: seq<Block>, own: seq<Owner>, i: nat, j: nat, b: nat)
    requires Slots(inodes, blocks, own) && i < |inodes| && j < NINDIRECT
    requires inodes[i].addrs[NDIRECT] != 0 && Addr(inodes, blocks, i, NDIRECT + 1 + j) == 0
    requires 0 < b < |own| && own[b] == Held
    ensures var a := inodes[i].addrs[NDIRECT];
      && a < |blocks| && own[a] == Slot(i, NDIRECT)
      && var blocks' := blocks[a := SetWord(blocks[a], j, b)];
         && AddrSet(inodes, blocks, inodes, blocks', i, NDIRECT + 1 + j, b)
         && Slots(inodes, blocks', own[b := Slot(i, NDIRECT + 1 + j)])
  {
    hide Word, SetWord;
    var a := inodes[i].addrs[NDIRECT];
    assert a == Addr(inodes, blocks, i, NDIRECT);
    var blocks' := blocks[a := SetWord(blocks[a], j, b)];
    forall i': nat, n': nat
      ensures Addr(inodes, blocks', i', n')
           == if i' == i && n' == NDIRECT + 1 + j then b else Addr(inodes, blocks, i', n')
    {
      if i' < |inodes| && NDIRECT < n' < NSLOTS {
        assert inodes[i'].addrs[NDIRECT] == Addr(inodes, blocks, i', NDIRECT);
        if i' == i {
          WordOfSetWord(blocks[a], j, b, n' - NDIRECT - 1);
        }
      }
    }
    SlotsSet(inodes, blocks, own, inodes, blocks', i, NDIRECT + 1 + j, b);
  }

  // A zeroed block in a data slot that was empty: no file reads differently.
  lemma BytesSet(inodes: seq<Inode>, blocks: seq<Block>, own: seq<Owner>, inodes': seq<Inode>, blocks': seq<Block>,
                 i: nat, n: nat, b: nat)
    requires Slots(inodes, blocks, own) && 0 < b < |own| && own[b] == Held && Addr(inodes, blocks, i, n) == 0
    requires AddrSet(inodes, blocks, inodes', blocks', i, n, b) && |blocks'| == |blocks| && blocks'[b] == ZERO_BLOCK
    requires forall c: nat :: c < |blocks| && blocks'[c] != blocks[c] ==> own[c].Slot? && own[c].n == NDIRECT
    ensures SameBytes(inodes, blocks, inodes', blocks')
  {
    hide Addr;
    forall i': nat, k: nat ensures ByteAt(inodes', blocks', i', k) == ByteAt(inodes, blocks, i', k) {
      var s := SlotOf(k / BSIZE);
      assert s != NDIRECT;
      var a := Addr(inodes, blocks, i', s);
      if a != 0 {
        assert own[a] == Slot(i', s);
      }
    }
  }

  // Taking a direct block, or the indirect block with all it lists, out of an inode.
  ghost function Detached(own: seq<Owner>, i: nat, n: nat): (r: seq<Owner>)
    ensures |r| == |own|
    ensures forall b: nat :: b < |own| ==>
      r[b] == if own[b].Slot? && own[b].inum == i && (own[b].n == n || (n == NDIRECT < own[b].n)) then Held else own[b]
  {
    seq(|own|, b requires 0 <= b < |own| =>
      if own[b].Slot? && own[b].inum == i && (own[b].n == n || (n == NDIRECT < own[b].n)) then Held else own[b])
  }

  ghost predicate AddrCleared(inodes: seq<Inode>, inodes': seq<Inode>, blocks: seq<Block>, i: nat, n: nat) {
    forall i': nat, n': nat ::
      Addr(inodes', blocks, i', n')
      == if i' == i && (n' == n || n == NDIRECT < n') then 0 else Addr(inodes, blocks, i', n')
  }

  lemma Detach(inodes: seq<Inode>, blocks: seq<Block>, own: seq<Owner>, i: nat, n: nat)
    requires Slots(inodes, blocks, own) && i < |inodes| && n <= NDIRECT
    ensures Slots(WithAddr(inodes, i, n, 0), blocks, Detached(own, i, n))
    ensures AddrCleared(inodes, WithAddr(inodes, i, n, 0), blocks, i, n)
  {
    hide Word;
    var inodes' := WithAddr(inodes, i, n, 0);
    forall i': nat, n': nat
      ensures Addr(inodes', blocks, i', n')
           == if i' == i && (n' == n || n == NDIRECT < n') then 0 else Addr(inodes, blocks, i', n')
    {
    }
    DetachSlots(inodes, blocks, own, inodes', i, n);
  }

  lemma DetachSlots(inodes: seq<Inode>, blocks: seq<Block>, own: seq<Owner>, inodes': seq<Inode>, i: nat, n: nat)
    requires Slots(inodes, blocks, own) && Wf(inodes')
    requires AddrCleared(inodes, inodes', blocks, i, n)
    ensures Slots(inodes', blocks, Detached(own, i, n))
  {
    hide Addr;
    var own' := Detached(own, i, n);
    forall b: nat | b < |own'| && own'[b].Slot? ensures Addr(inodes', blocks, own'[b].inum, own'[b].n) == b {
      assert own'[b] == own[b];
    }
  }

  // ---- files as byte sequences ----

  // What readi and writei call the contents of a file.
  function Contents(inodes: seq<Inode>, blocks: seq<Block>, i: nat): (s: seq<byte>)
    requires i < |inodes|
    ensures |s| == inodes[i].size
  {
    seq(inodes[i].size, k requires 0 <= k < inodes[i].size => ByteAt(inodes, blocks, i, k))
  }

  // Every block below the size of a file is there.
  ghost predicate NoHoles(inodes: seq<Inode>, blocks: seq<Block>) {
    forall i: nat, bn: nat :: i < |inodes| && bn * BSIZE < inodes[i].size ==> Addr(inodes, blocks, i, SlotOf(bn)) != 0
  }

  // The files after data has been written to inode i at off.
  ghost predicate BytesWritten(inodes: seq<Inode>, blocks: seq<Block>, inodes': seq<Inode>, blocks': seq<Block>,
                               i: nat, off: nat, data: seq<byte>) {
    forall i': nat, k: nat ::
      ByteAt(inodes', blocks', i', k)
      == if i' == i && off <= k < off + |data| then data[k - off] else ByteAt(inodes, blocks, i', k)
  }

  // A block with m bytes replaced at position o.
  function Patched(b: Block, o: nat, data: seq<byte>): (r: Block)
    requires o + |data| <= BSIZE
    ensures forall k :: 0 <= k < BSIZE ==> r.bytes[k] == if o <= k < o + |data| then data[k - o] else b.bytes[k]
  {
    Bytes(b.bytes[..o] + data + b.bytes[o + |data|..])
  }

  // Writing inside one block of a file.
  lemma WriteInBlock(inodes: seq<Inode>, blocks: seq<Block>, own: seq<Owner>, i: nat, off: nat, data: seq<byte>)
    requires Slots(inodes, blocks, own) && off % BSIZE + |data| <= BSIZE
    requires Addr(inodes, blocks, i, SlotOf(off / BSIZE)) != 0
    ensures var a := Addr(inodes, blocks, i, SlotOf(off / BSIZE));
      && a < |blocks|
      && var blocks' := blocks[a := Patched(blocks[a], off % BSIZE, data)];
         && Slots(inodes, blocks', own) && BytesWritten(inodes, blocks, inodes, blocks', i, off, data)
         && forall i': nat, n: nat :: Addr(inodes, blocks', i', n) == Addr(inodes, blocks, i', n)
  {
    hide Addr, Patched;
    var s := SlotOf(off / BSIZE);
    var a := Addr(inodes, blocks, i, s);
    assert own[a] == Slot(i, s) && s != NDIRECT;
    var blocks' := blocks[a := Patched(blocks[a], off % BSIZE, data)];
    AddrFrame(inodes, blocks, own, a, blocks'[a]);
    SlotsFrame(inodes, blocks, own, a, blocks'[a]);
    forall i': nat, k: nat
      ensures ByteAt(inodes, blocks', i', k)
           == if i' == i && off <= k < off + |data| then data[k - off] else ByteAt(inodes, blocks, i', k)
    {
      InBlock(off, |data|, k);
      var a' := Addr(inodes, blocks, i', SlotOf(k / BSIZE));
      if a' == a {
        assert i' == i && k / BSIZE == off / BSIZE;
      }
    }
  }

  lemma InBlock(off: nat, n: nat, k: nat)
    requires off % BSIZE + n <= BSIZE
    ensures off <= k < off + n ==> k / BSIZE == off / BSIZE
    ensures k / BSIZE == off / BSIZE ==>
      (off <= k < off + n <==> off % BSIZE <= k % BSIZE < off % BSIZE + n) && k - off == k % BSIZE - off % BSIZE
  {
    assert k == k / BSIZE * BSIZE + k % BSIZE && off == off / BSIZE * BSIZE + off % BSIZE;
    if off <= k < off + n {
      assert k / BSIZE == off / BSIZE;
    }
  }

  // The effect of writing on a byte sequence.
  function Spliced(s: seq<byte>, off: nat, data: seq<byte>): (r: seq<byte>)
    requires off <= |s|
    ensures |r| == if off + |data| > |s| then off + |data| else |s|
    ensures r[..off] == s[..off] && r[off..off + |data|] == data
    ensures off + |data| <= |s| ==> r[off + |data|..] == s[off + |data|..]
  {
    s[..off] + data + if off + |data| <= |s| then s[off + |data|..] else []
  }

  lemma WrittenContents(in0: seq<Inode>, bl0: seq<Block>, in1: seq<Inode>, bl1: seq<Block>, i: nat, off: nat,
                        data: seq<byte>, j: nat)
    requires BytesWritten(in0, bl0, in1, bl1, i, off, data) && |in1| == |in0| && i < |in0| && j < |in0|
    requires off <= in0[i].size
    requires in1[j].size == if j == i && off + |data| > in0[j].size then off + |data| else in0[j].size
    ensures Contents(in1, bl1, j) == if j == i then Spliced(Contents(in0, bl0, j), off, data) else Contents(in0, bl0, j)
  {
    hide ByteAt;
  }
}
