/** The file layer's state as sectors: inode blocks of eight 64-byte dinodes, bitmap blocks of 4096
    bits, data blocks (xv6/fs.h). Sectors that were not logged do not change, and the sectors
    determine the state. */
module FsImage {
  import opened Blocks
  import opened FsState

  /** The three parts of the disk below the log. */
  datatype Parts = Parts(bits: seq<bool>, inodes: seq<Inode>, data: seq<Block>)

  /** Every part that differs from v to v' lies in a sector that has been handed to log_write. */
  ghost predicate Covered(sb: Super, v: Parts, logged: set<nat>, v': Parts, logged': set<nat>) {
    && logged <= logged' && |v'.bits| == |v.bits| && |v'.inodes| == |v.inodes| && |v'.data| == |v.data|
    && (forall b :: 0 <= b < |v.bits| && v'.bits[b] != v.bits[b] ==> BBlock(sb, b) in logged')
    && (forall i :: 0 <= i < |v.inodes| && v'.inodes[i] != v.inodes[i] ==> IBlock(i) in logged')
    && (forall b :: 0 <= b < |v.data| && v'.data[b] != v.data[b] ==> b in logged')
  }

  lemma CoveredNone(sb: Super, v: Parts, logged: set<nat>)
    ensures Covered(sb, v, logged, v, logged)
  {
  }

  lemma CoveredTwice(sb: Super, v: Parts, logged: set<nat>, v1: Parts, logged1: set<nat>, v2: Parts, logged2: set<nat>)
    requires Covered(sb, v, logged, v1, logged1) && Covered(sb, v1, logged1, v2, logged2)
    ensures Covered(sb, v, logged, v2, logged2)
  {
  }

  // ---------- words and bits ----------

  /** Byte k of a block made of the given words. */
  function WordByte(v: uint, k: nat): byte
    requires k < 4
  {
    if k == 0 then v % 0x100 else if k == 1 then v / 0x100 % 0x100 else if k == 2 then v / 0x1_0000 % 0x100
      else v / 0x100_0000
  }

  function FromWords(ws: seq<uint>): Block
    requires |ws| == 128
  {
    seq(512, k requires 0 <= k < 512 => WordByte(ws[k / 4], k % 4))
  }

  lemma FromWordsAt(ws: seq<uint>, i: nat)
    requires |ws| == 128 && i < 128
    ensures Word(FromWords(ws), i) == ws[i]
  {
    var b := FromWords(ws);
    assert b[4 * i] == WordByte(ws[i], 0) && b[4 * i + 1] == WordByte(ws[i], 1)
        && b[4 * i + 2] == WordByte(ws[i], 2) && b[4 * i + 3] == WordByte(ws[i], 3);
    JoinSplit(ws[i]);
  }

  function Pow2(n: nat): nat { if n == 0 then 1 else 2 * Pow2(n - 1) }

  /** Bits as a number, the lowest first. */
  function Pack(b: seq<bool>): (v: nat)
    ensures v < Pow2(|b|)
  {
    if b == [] then 0 else (if b[0] then 1 else 0) + 2 * Pack(b[1..])
  }

  /** Bit m of v: v >> m & 1. */
  predicate BitAt(v: nat, m: nat)
    decreases m
  {
    if m == 0 then v % 2 == 1 else BitAt(v / 2, m - 1)
  }

  lemma {:induction false} PackAt(b: seq<bool>, m: nat)
    requires m < |b|
    ensures BitAt(Pack(b), m) <==> b[m]
  {
    hide Pow2;
    Halve(if b[0] then 1 else 0, Pack(b[1..]));
    if m > 0 {
      PackAt(b[1..], m - 1);
    }
  }

  lemma Halve(low: nat, high: nat)
    requires low < 2
    ensures (low + 2 * high) / 2 == high && (low + 2 * high) % 2 == low
  {
  }

  function PackByte(b: seq<bool>): byte
    requires |b| == 8
  {
    assert Pow2(8) == 2 * Pow2(7) == 4 * Pow2(6) == 8 * Pow2(5) == 16 * Pow2(4) == 32 * Pow2(3) == 64 * Pow2(2)
           == 128 * Pow2(1) == 256;
    Pack(b)
  }

  // ---------- inode blocks ----------

  /** The values of a short. */
  predicate IsShort(n: int) { -0x8000 <= n < 0x8000 }

  /** Two bytes read as a short. */
  function Signed(n: nat): int { if n < 0x8000 then n else n - 0x1_0000 }

  /** Two shorts in one word. */
  lemma ShortsRoundTrip(a: int, b: int, w: int)
    requires IsShort(a) && IsShort(b) && w == a % 0x1_0000 + 0x1_0000 * (b % 0x1_0000)
    ensures w >= 0 && Signed(w % 0x1_0000) == a && Signed(w / 0x1_0000) == b
  {
    assert w % 0x1_0000 == a % 0x1_0000 && w / 0x1_0000 == b % 0x1_0000;
  }

  /** The fields fit their widths on disk. */
  predicate InodeFits(d: Inode) {
    && IsShort(d.typ) && IsShort(d.major) && IsShort(d.minor) && IsShort(d.nlink)
    && d.size < UINT_LIMIT && forall k :: 0 <= k < 13 ==> d.addrs[k] < UINT_LIMIT
  }

  /** Word j of struct dinode: two pairs of shorts, the size, the addresses. */
  function InodeWord(d: Inode, j: nat): uint
    requires j < 16
  {
    if j == 0 then d.typ % 0x1_0000 + 0x1_0000 * (d.major % 0x1_0000)
    else if j == 1 then d.minor % 0x1_0000 + 0x1_0000 * (d.nlink % 0x1_0000)
    else if j == 2 then d.size % UINT_LIMIT
    else d.addrs[j - 3] % UINT_LIMIT
  }

  function AddrsAt(b: Block, i: nat, n: nat): (a: seq<nat>)
    requires i + n <= 128
    ensures |a| == n && forall k :: 0 <= k < n ==> a[k] == Word(b, i + k)
  {
    if n == 0 then [] else AddrsAt(b, i, n - 1) + [Word(b, i + n - 1)]
  }

  /** Reads back the 16 words of dinode n of a block. */
  function InodeAt(b: Block, n: nat): Inode
    requires n < IPB
  {
    var w0, w1 := Word(b, 16 * n), Word(b, 16 * n + 1);
    Inode(Signed(w0 % 0x1_0000), Signed(w0 / 0x1_0000), Signed(w1 % 0x1_0000), Signed(w1 / 0x1_0000),
          Word(b, 16 * n + 2),
          AddrsAt(b, 16 * n + 3, 13))
  }

  /** The inode block with dinodes 8 * t, ..., 8 * t + 7. */
  function InodeBlock(inodes: seq<Inode>, t: nat): Block {
    FromWords(seq(128, n requires 0 <= n < 128 =>
      if IPB * t + n / 16 < |inodes| then InodeWord(inodes[IPB * t + n / 16], n % 16) else 0))
  }

  lemma InodeBlockWord(inodes: seq<Inode>, t: nat, n: nat, j: nat, i: nat)
    requires n < IPB && j < 16 && i == IPB * t + n < |inodes|
    ensures Word(InodeBlock(inodes, t), 16 * n + j) == InodeWord(inodes[i], j)
  {
    hide InodeWord, FromWords;
    var ws: seq<uint> := seq(128, k requires 0 <= k < 128 =>
      if IPB * t + k / 16 < |inodes| then InodeWord(inodes[IPB * t + k / 16], k % 16) else 0);
    FromWordsAt(ws, 16 * n + j);
    assert (16 * n + j) / 16 == n && (16 * n + j) % 16 == j;
  }

  /** ROUND TRIP of a dinode. */
  lemma InodeRoundTrip(inodes: seq<Inode>, t: nat, n: nat, i: nat)
    requires n < IPB && i == IPB * t + n < |inodes| && InodeFits(inodes[i])
    ensures InodeAt(InodeBlock(inodes, t), n) == inodes[i]
  {
    hide InodeBlock, Word, Signed, IsShort;
    var b, d := InodeBlock(inodes, t), inodes[i];
    ShortsRoundTrip(d.typ, d.major, InodeWord(d, 0));
    ShortsRoundTrip(d.minor, d.nlink, InodeWord(d, 1));
    InodeBlockWord(inodes, t, n, 0, i);
    InodeBlockWord(inodes, t, n, 1, i);
    InodeBlockWord(inodes, t, n, 2, i);
    forall k | 0 <= k < 13 ensures Word(b, 16 * n + 3 + k) == d.addrs[k] {
      InodeBlockWord(inodes, t, n, 3 + k, i);
    }
    assert InodeAt(b, n).addrs == d.addrs;
  }

  // ---------- bitmap blocks ----------

  function BitOr(bits: seq<bool>, b: nat): bool { b < |bits| && bits[b] }

  function Row(bits: seq<bool>, t: nat, k: nat): (row: seq<bool>)
    ensures |row| == 8 && forall m :: 0 <= m < 8 ==> row[m] == BitOr(bits, BPB * t + 8 * k + m)
  {
    seq(8, m requires 0 <= m < 8 => BitOr(bits, BPB * t + 8 * k + m))
  }

  /** The bitmap block with bits 4096 * t, ..., 4096 * t + 4095. */
  function BitmapBlock(bits: seq<bool>, t: nat): Block {
    seq(512, k requires 0 <= k < 512 => PackByte(Row(bits, t, k)))
  }

  /** ROUND TRIP of a bitmap bit: balloc's test of bit bi % 8 of byte bi / 8. */
  lemma BitRoundTrip(bits: seq<bool>, t: nat, bi: nat)
    requires bi < BPB && BPB * t + bi < |bits|
    ensures BitAt(BitmapBlock(bits, t)[bi / 8], bi % 8) <==> bits[BPB * t + bi]
  {
    var k := bi / 8;
    PackAt(Row(bits, t, k), bi % 8);
    assert 8 * k + bi % 8 == bi;
  }

  // ---------- the whole disk ----------

  /** The first sector of the bitmap. */
  function BitmapStart(sb: Super): nat { sb.ninodes / IPB + 3 }

  /** What sector s holds when the file layer is in state v. */
  function Sector(sb: Super, v: Parts, s: nat): Block {
    if 2 <= s < BitmapStart(sb) then InodeBlock(v.inodes, s - 2)
    else if BitmapStart(sb) <= s < DataStart(sb) then BitmapBlock(v.bits, s - BitmapStart(sb))
    else if s < |v.data| then v.data[s]
    else ZeroBlock()
  }

  ghost predicate Sized(sb: Super, v: Parts) {
    |v.bits| == sb.size && |v.data| == sb.size && |v.inodes| == sb.ninodes && forall i :: 0 <= i < |v.inodes| ==>
      InodeFits(v.inodes[i])
  }

  /** SECTORS THAT WERE NOT LOGGED HOLD WHAT THEY HELD. */
  lemma Unlogged(sb: Super, v: Parts, v': Parts, logged: set<nat>, s: nat)
    requires Covered(sb, v, {}, v', logged) && s !in logged
    ensures Sector(sb, v', s) == Sector(sb, v, s)
  {
    if 2 <= s < BitmapStart(sb) {
      SameInodeBlock(v.inodes, v'.inodes, s - 2, s, logged);
    } else if BitmapStart(sb) <= s < DataStart(sb) {
      SameBitmapBlock(sb, v.bits, v'.bits, s - BitmapStart(sb), s, logged);
    }
  }

  lemma SameInodeBlock(inodes: seq<Inode>, inodes': seq<Inode>, t: nat, s: nat, logged: set<nat>)
    requires |inodes'| == |inodes| && s == t + 2 && s !in logged
    requires forall i :: 0 <= i < |inodes| && inodes'[i] != inodes[i] ==> IBlock(i) in logged
    ensures InodeBlock(inodes', t) == InodeBlock(inodes, t)
  {
    hide InodeWord, FromWords;
    forall n | 0 <= n < 128 && IPB * t + n / 16 < |inodes|
      ensures inodes'[IPB * t + n / 16] == inodes[IPB * t + n / 16]
    {
      assert IBlock(IPB * t + n / 16) == s;
    }
    assert seq<uint>(128, n requires 0 <= n < 128 =>
             if IPB * t + n / 16 < |inodes'| then InodeWord(inodes'[IPB * t + n / 16], n % 16) else 0)
        == seq<uint>(128, n requires 0 <= n < 128 =>
             if IPB * t + n / 16 < |inodes| then InodeWord(inodes[IPB * t + n / 16], n % 16) else 0);
  }

  lemma SameBitmapBlock(sb: Super, bits: seq<bool>, bits': seq<bool>, t: nat, s: nat, logged: set<nat>)
    requires |bits'| == |bits| && s == t + BitmapStart(sb) && s !in logged
    requires forall b :: 0 <= b < |bits| && bits'[b] != bits[b] ==> BBlock(sb, b) in logged
    ensures BitmapBlock(bits', t) == BitmapBlock(bits, t)
  {
    forall k: nat | k < 512 ensures Row(bits', t, k) == Row(bits, t, k) {
      forall m | 0 <= m < 8 ensures Row(bits', t, k)[m] == Row(bits, t, k)[m] {
        assert (BPB * t + 8 * k + m) / BPB == t;
      }
    }
  }

  lemma InodesDetermined(sb: Super, v: Parts, w: Parts, i: nat)
    requires Sized(sb, v) && Sized(sb, w) && i < sb.ninodes && Sector(sb, v, IBlock(i)) == Sector(sb, w, IBlock(i))
    ensures v.inodes[i] == w.inodes[i]
  {
    hide InodeBlock, BitmapBlock, InodeAt;
    var t, n := i / IPB, i % IPB;
    assert Sector(sb, v, t + 2) == InodeBlock(v.inodes, t) && Sector(sb, w, t + 2) == InodeBlock(w.inodes, t);
    InodeRoundTrip(v.inodes, t, n, i);
    InodeRoundTrip(w.inodes, t, n, i);
  }

  lemma BitsDetermined(sb: Super, v: Parts, w: Parts, b: nat)
    requires Sized(sb, v) && Sized(sb, w) && b < sb.size && Sector(sb, v, BBlock(sb, b)) == Sector(sb, w, BBlock(sb, b))
    ensures v.bits[b] == w.bits[b]
  {
    hide InodeBlock, BitmapBlock, BitAt;
    var t, bi := b / BPB, b % BPB;
    assert t <= sb.size / BPB;
    var s := t + BitmapStart(sb);
    assert Sector(sb, v, s) == BitmapBlock(v.bits, t) && Sector(sb, w, s) == BitmapBlock(w.bits, t);
    BitRoundTrip(v.bits, t, bi);
    BitRoundTrip(w.bits, t, bi);
  }

  /** THE SECTORS DETERMINE THE STATE: two states with the same home sectors have the same inodes,
      bits and data blocks. */
  lemma SectorsDetermine(sb: Super, v: Parts, w: Parts)
    requires Sized(sb, v) && Sized(sb, w) && DataStart(sb) <= LogStart(sb)
    requires forall s: nat :: s < LogStart(sb) ==> Sector(sb, v, s) == Sector(sb, w, s)
    ensures v.inodes == w.inodes && v.bits == w.bits
    ensures forall b: nat :: b < sb.size && !Meta(sb, b) ==> v.data[b] == w.data[b]
  {
    forall b: nat | b < sb.size && !Meta(sb, b) ensures v.data[b] == w.data[b] {
      assert Sector(sb, v, b) == Sector(sb, w, b);
    }
    hide Sector;
    forall i | 0 <= i < sb.ninodes ensures v.inodes[i] == w.inodes[i] {
      assert i / IPB <= sb.ninodes / IPB;
      InodesDetermined(sb, v, w, i);
    }
    forall b | 0 <= b < sb.size ensures v.bits[b] == w.bits[b] {
      assert b / BPB <= sb.size / BPB;
      BitsDetermined(sb, v, w, b);
    }
  }

  // ---------- how the code changes a sector ----------

  lemma {:induction false} PackSet(row: seq<bool>, m: nat, on: bool)
    requires m < |row|
    ensures Pack(row[m := on])
            == Pack(row) + (if on && !row[m] then Pow2(m) else 0) - (if !on && row[m] then Pow2(m) else 0)
  {
    if m > 0 {
      PackSet(row[1..], m - 1, on);
      assert row[m := on][1..] == row[1..][m - 1 := on];
    } else {
      assert row[m := on][1..] == row[1..];
    }
  }

  /** bp->data[bi/8] |= 1 << bi%8, or &= ~(1 << bi%8). */
  function SetBit(x: Block, bi: nat, on: bool): Block
    requires bi < BPB
  {
    var k, m := bi / 8, Pow2(bi % 8);
    if BitAt(x[k], bi % 8) == on then x else x[k := (if on then x[k] + m else x[k] - m) % 256]
  }

  lemma OneByte(bits: seq<bool>, t: nat, j: nat, m: nat, on: bool, b: nat)
    requires j < 512 && m < 8 && b == BPB * t + 8 * j + m < |bits|
    ensures BitmapBlock(bits[b := on], t) == BitmapBlock(bits, t)[j := PackByte(Row(bits, t, j)[m := on])]
  {
    hide Pack, Row, PackByte;
    var x, x' := BitmapBlock(bits, t), BitmapBlock(bits[b := on], t);
    forall k: nat | k < 512 && k != j ensures x'[k] == x[k] {
      RowOther(bits, t, k, b, on, j);
    }
    RowSame(bits, t, j, m, b, on);
  }

  /** Setting one bit of a bitmap block is what balloc and bfree do to its bytes. */
  lemma SetBitIs(bits: seq<bool>, t: nat, bi: nat, on: bool, b: nat)
    requires bi < BPB && b == BPB * t + bi < |bits|
    ensures SetBit(BitmapBlock(bits, t), bi, on) == BitmapBlock(bits[b := on], t)
  {
    hide PackByte, Pack, BitAt, Pow2, Row;
    var j, m := bi / 8, bi % 8;
    assert bi == 8 * j + m;
    OneByte(bits, t, j, m, on, b);
    ByteSet(Row(bits, t, j), m, on);
  }

  lemma ByteSet(row: seq<bool>, m: nat, on: bool)
    requires |row| == 8 && m < 8
    ensures BitAt(PackByte(row), m) <==> row[m]
    ensures PackByte(row[m := on]) ==
            if row[m] == on then PackByte(row)
              else (if on then PackByte(row) + Pow2(m) else PackByte(row) - Pow2(m)) % 256
  {
    hide Pack, BitAt, Pow2;
    PackAt(row, m);
    PackSet(row, m, on);
    if row[m] == on {
      assert row[m := on] == row;
    }
  }

  lemma RowOther(bits: seq<bool>, t: nat, k: nat, b: nat, on: bool, j: nat)
    requires b < |bits| && b / BPB == t && b % BPB / 8 == j && k != j && k < 512
    ensures Row(bits[b := on], t, k) == Row(bits, t, k)
  {
    forall m | 0 <= m < 8 ensures Row(bits[b := on], t, k)[m] == Row(bits, t, k)[m] {
      assert BPB * t + 8 * k + m != b;
    }
  }

  lemma RowSame(bits: seq<bool>, t: nat, j: nat, m: nat, b: nat, on: bool)
    requires b < |bits| && m < 8 && b == BPB * t + 8 * j + m
    ensures Row(bits[b := on], t, j) == Row(bits, t, j)[m := on]
  {
  }

  lemma JoinInjective(a0: byte, a1: byte, a2: byte, a3: byte, b0: byte, b1: byte, b2: byte, b3: byte)
    requires Join(a0, a1, a2, a3) == Join(b0, b1, b2, b3)
    ensures a0 == b0 && a1 == b1 && a2 == b2 && a3 == b3
  {
    var x2, y2 := a2 + 0x100 * a3, b2 + 0x100 * b3;
    var x1, y1 := a1 + 0x100 * x2, b1 + 0x100 * y2;
    LowByte(a0, x1, b0, y1);
    LowByte(a1, x2, b1, y2);
    LowByte(a2, a3, b2, b3);
  }

  lemma LowByte(a: byte, x: nat, b: byte, y: nat)
    requires a + 0x100 * x == b + 0x100 * y
    ensures a == b && x == y
  {
  }

  /** A block is its 128 words. */
  lemma WordsDetermine(x: Block, y: Block)
    requires forall i: nat :: i < 128 ==> Word(x, i) == Word(y, i)
    ensures x == y
  {
    forall k | 0 <= k < 512 ensures x[k] == y[k] {
      var i := k / 4;
      assert Word(x, i) == Word(y, i);
      JoinInjective(x[4 * i], x[4 * i + 1], x[4 * i + 2], x[4 * i + 3], y[4 * i], y[4 * i + 1], y[4 * i + 2],
                    y[4 * i + 3]);
    }
  }

  /** iupdate's stores into dinode n of the block: its first j words. */
  function PutInode(x: Block, n: nat, d: Inode, j: nat): Block
    requires n < IPB && j <= 16
  {
    if j == 0 then x else PutWord(PutInode(x, n, d, j - 1), 16 * n + (j - 1), InodeWord(d, j - 1))
  }

  lemma {:induction false} PutInodeWord(x: Block, n: nat, d: Inode, j: nat, i: nat)
    requires n < IPB && j <= 16 && i < 128
    ensures Word(PutInode(x, n, d, j), i) == if 16 * n <= i < 16 * n + j then InodeWord(d, i - 16 * n) else Word(x, i)
  {
    hide Word, PutWord, InodeWord;
    if j > 0 {
      PutInodeWord(x, n, d, j - 1, i);
      WordOfPutWord(PutInode(x, n, d, j - 1), 16 * n + (j - 1), InodeWord(d, j - 1), i);
    }
  }

  /** Word k of an inode block. */
  lemma InodeBlockAt(inodes: seq<Inode>, t: nat, k: nat)
    requires k < 128
    ensures Word(InodeBlock(inodes, t), k) == if IPB * t + k / 16 < |inodes|
            then InodeWord(inodes[IPB * t + k / 16], k % 16) else 0
  {
    hide InodeWord, FromWords;
    var ws: seq<uint> := seq(128, n requires 0 <= n < 128 =>
      if IPB * t + n / 16 < |inodes| then InodeWord(inodes[IPB * t + n / 16], n % 16) else 0);
    FromWordsAt(ws, k);
  }

  /** Storing one dinode into its block is what iupdate does to its words. */
  lemma PutInodeIs(inodes: seq<Inode>, t: nat, n: nat, i: nat, d: Inode)
    requires n < IPB && i == IPB * t + n < |inodes|
    ensures PutInode(InodeBlock(inodes, t), n, d, 16) == InodeBlock(inodes[i := d], t)
  {
    hide Word, PutInode, InodeBlock, InodeWord;
    var x, y := PutInode(InodeBlock(inodes, t), n, d, 16), InodeBlock(inodes[i := d], t);
    forall k: nat | k < 128 ensures Word(x, k) == Word(y, k) {
      PutInodeWord(InodeBlock(inodes, t), n, d, 16, k);
      InodeBlockAt(inodes, t, k);
      InodeBlockAt(inodes[i := d], t, k);
      assert 16 * n <= k < 16 * n + 16 <==> k / 16 == n;
    }
    WordsDetermine(x, y);
  }
}
