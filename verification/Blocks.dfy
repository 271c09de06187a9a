// Constants of the block layer (kernel/param.h, kernel/fs.h) and the contents of
// one disk block: BSIZE bytes, read either as bytes or as little-endian 32-bit words.
module Blocks {

  const BSIZE: nat := 1024
  const FSSIZE: nat := 4096
  const LOGICAL_DISK_SIZE: nat := FSSIZE / 2
  const DISK1_START_BLOCK: nat := FSSIZE / 2
  const MAXOPBLOCKS: nat := 10
  const LOGSIZE: nat := MAXOPBLOCKS * 3
  const NBUF: nat := MAXOPBLOCKS * 3
  const ROOTDEV: nat := 1
  const WORDS: nat := BSIZE / 4
  const UINT_LIMIT: nat := 0x1_0000_0000

  type byte = x: int | 0 <= x < 256

  // A value of the C type uint.
  type uint = x: int | 0 <= x < UINT_LIMIT

  datatype Bytes = Bytes(bytes: seq<byte>)

  type Block = b: Bytes | |b.bytes| == BSIZE witness Bytes(seq(BSIZE, _ => 0))

  const ZERO_BLOCK: Block := Bytes(seq(BSIZE, _ => 0))

  // The ith 32-bit word of a block, little-endian.
  function Word(b: Block, i: nat): (w: uint)
    requires i < WORDS
  {
    var b0: int, b1: int, b2: int, b3: int := b.bytes[4 * i], b.bytes[4 * i + 1], b.bytes[4 * i + 2],
        b.bytes[4 * i + 3];
    b0 + 0x100 * b1 + 0x1_0000 * b2 + 0x100_0000 * b3
  }

  function SetWord(b: Block, i: nat, v: uint): (r: Block)
    requires i < WORDS
  {
    Bytes(b.bytes[4 * i := v % 0x100][4 * i + 1 := (v / 0x100) % 0x100]
                 [4 * i + 2 := (v / 0x1_0000) % 0x100][4 * i + 3 := v / 0x100_0000])
  }

  // Storing a word changes that word, to the value stored, and no other.
  lemma WordOfSetWord(b: Block, i: nat, v: uint, j: nat)
    requires i < WORDS && j < WORDS
    ensures Word(SetWord(b, i, v), j) == if i == j then v else Word(b, j)
  {
    hide Word, SetWord;
    if i == j {
      StoredWord(b, i, v);
    } else {
      OtherWord(b, i, v, j);
    }
  }

  lemma StoredWord(b: Block, i: nat, v: uint)
    requires i < WORDS
    ensures Word(SetWord(b, i, v), i) == v
  {
    var r := SetWord(b, i, v).bytes;
    assert r[4 * i] == v % 0x100;
    assert r[4 * i + 1] == (v / 0x100) % 0x100;
    assert r[4 * i + 2] == (v / 0x1_0000) % 0x100;
    assert r[4 * i + 3] == v / 0x100_0000;
    FourBytes(v);
  }

  // The four bytes of a word.
  lemma FourBytes(v: uint)
    ensures v % 0x100 + 0x100 * ((v / 0x100) % 0x100) + 0x1_0000 * ((v / 0x1_0000) % 0x100)
      + 0x100_0000 * (v / 0x100_0000) == v
  {
    assert v / 0x1_0000 == v / 0x100 / 0x100 && v / 0x100_0000 == v / 0x1_0000 / 0x100;
  }

  lemma OtherWord(b: Block, i: nat, v: uint, j: nat)
    requires i < WORDS && j < WORDS && i != j
    ensures Word(SetWord(b, i, v), j) == Word(b, j)
  {
    assert 4 * i + 3 < 4 * j || 4 * j + 3 < 4 * i;
    forall k | 4 * j <= k < 4 * j + 4 ensures SetWord(b, i, v).bytes[k] == b.bytes[k] {
    }
  }
}
