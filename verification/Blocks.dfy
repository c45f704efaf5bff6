/** Disk blocks as the kernel sees them: 512 bytes, read either bytewise or as 128
    little-endian 32-bit words (xv6/fs.h, xv6/buf.h). */
module Blocks {

  const BSIZE := 512
  const UINT_LIMIT := 0x1_0000_0000

  type byte = x: int | 0 <= x < 256
  type uint = x: int | 0 <= x < UINT_LIMIT
  type Block = b: seq<byte> | |b| == 512 witness seq(512, _ => 0)

  /** The block memset to zero by bzero (xv6/fs.c). */
  function ZeroBlock(): Block {
    seq(512, _ => 0)
  }

  /** Four bytes, least significant first, as a 32-bit number. */
  function Join(b0: byte, b1: byte, b2: byte, b3: byte): uint {
    b0 as int + 0x100 * (b1 as int) + 0x1_0000 * (b2 as int) + 0x100_0000 * (b3 as int)
  }

  lemma JoinSplit(v: uint)
    ensures Join(v % 0x100, v / 0x100 % 0x100, v / 0x1_0000 % 0x100, v / 0x100_0000) == v
  {
    assert v / 0x1_0000 == v / 0x100 / 0x100 && v / 0x100_0000 == v / 0x1_0000 / 0x100;
  }

  /** The i-th 32-bit word of a block. */
  function Word(b: Block, i: nat): uint
    requires i < 128
  {
    Join(b[4 * i], b[4 * i + 1], b[4 * i + 2], b[4 * i + 3])
  }

  /** The block after storing the 32-bit word v at index i. */
  function PutWord(b: Block, i: nat, v: uint): Block
    requires i < 128
  {
    b[4 * i := v % 0x100][4 * i + 1 := v / 0x100 % 0x100]
     [4 * i + 2 := v / 0x1_0000 % 0x100][4 * i + 3 := v / 0x100_0000]
  }

  lemma PutWordBytes(b: Block, i: nat, v: uint, k: nat)
    requires i < 128 && k < 512
    requires k < 4 * i || 4 * i + 4 <= k
    ensures PutWord(b, i, v)[k] == b[k]
  {
  }

  /** Storing a word changes that word and no other. */
  lemma WordOfPutWord(b: Block, i: nat, v: uint, j: nat)
    requires i < 128 && j < 128
    ensures Word(PutWord(b, i, v), j) == if i == j then v else Word(b, j)
  {
    if i == j {
      JoinSplit(v);
    } else {
      PutWordBytes(b, i, v, 4 * j);
      PutWordBytes(b, i, v, 4 * j + 1);
      PutWordBytes(b, i, v, 4 * j + 2);
      PutWordBytes(b, i, v, 4 * j + 3);
    }
  }

  lemma WordOfZero(i: nat)
    requires i < 128
    ensures Word(ZeroBlock(), i) == 0
  {
  }
}
