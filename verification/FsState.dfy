/** The on-disk state of the file layer of xv6/fs.c: free-block bitmap, inode table and block
    contents, with the block-ownership invariant and the bytes a file denotes. */
module FsState {
  import opened Blocks

  const NDIRECT := 12
  const NINDIRECT := 128
  const MAXFILE := NDIRECT + NINDIRECT
  /** Address slots of an inode: the direct blocks, the indirect block, the indirect block's entries. */
  const NSLOT := NDIRECT + 1 + NINDIRECT
  const IPB := 8
  const BPB := 4096

  /** struct superblock. */
  datatype Super = Super(size: nat, ninodes: nat, nlog: nat)

  function IBlock(i: nat): nat { i / IPB + 2 }
  function BBlock(sb: Super, b: nat): nat { b / BPB + sb.ninodes / IPB + 3 }
  /** The first sector after the bitmap. */
  function DataStart(sb: Super): nat { sb.size / BPB + sb.ninodes / IPB + 4 }
  function LogStart(sb: Super): int { sb.size - sb.nlog }

  /** Sectors that no file may own: boot, super, inode and bitmap blocks, and the log. */
  predicate Meta(sb: Super, b: nat) { b < DataStart(sb) || LogStart(sb) <= b }

  /** struct dinode; the in-memory inode keeps the same fields. */
  datatype InodeRaw = Inode(typ: int, major: int, minor: int, nlink: int, size: nat, addrs: seq<nat>)
  type Inode = d: InodeRaw | |d.addrs| == 13 witness Inode(0, 0, 0, 0, 0, seq(13, _ => 0))

  /** The block number in slot s of inode d; 0 when there is none. */
  function Addr(d: Inode, data: seq<Block>, s: nat): nat
    requires s < NSLOT
  {
    if s <= NDIRECT then d.addrs[s]
    else if d.addrs[NDIRECT] == 0 || d.addrs[NDIRECT] >= |data| then 0
    else Word(data[d.addrs[NDIRECT]], s - NDIRECT - 1)
  }

  /** The slot of the n-th block of a file. */
  function SlotOf(bn: nat): (s: nat) {
    if bn < NDIRECT then bn else bn + 1
  }

  // ---------- ownership ----------

  /** `own` names, for every data block in use, the one inode and slot that hold it; the bitmap
      marks exactly the reserved sectors and the owned blocks. */
  ghost predicate Owned(sb: Super, tab: seq<Inode>, bits: seq<bool>, data: seq<Block>, own: map<nat, (nat, nat)>) {
    && |bits| == sb.size && |data| == sb.size <= UINT_LIMIT
    && (forall b :: 0 <= b < sb.size ==> (bits[b] <==> Meta(sb, b) || b in own))
    && (forall b :: b in own ==>
          && 0 <= b < sb.size && !Meta(sb, b) && own[b].0 < |tab| && own[b].1 < NSLOT
          && Addr(tab[own[b].0], data, own[b].1) == b)
    && (forall i: nat, s: nat :: i < |tab| && s < NSLOT && Addr(tab[i], data, s) != 0 ==>
          Addr(tab[i], data, s) in own && own[Addr(tab[i], data, s)] == (i, s))
  }

  /** NO BLOCK IS OWNED TWICE, and the in-use bits are exactly the reserved sectors plus the blocks
      that some inode holds. */
  lemma OwnershipMeans(sb: Super, tab: seq<Inode>, bits: seq<bool>, data: seq<Block>, own: map<nat, (nat, nat)>)
    requires Owned(sb, tab, bits, data, own)
    ensures forall i: nat, s: nat, j: nat, t: nat ::
              i < |tab| && j < |tab| && s < NSLOT && t < NSLOT && (i, s) != (j, t) && Addr(tab[i], data, s) != 0 ==>
              Addr(tab[i], data, s) != Addr(tab[j], data, t)
    ensures forall b :: 0 <= b < sb.size ==>
              (bits[b] <==> Meta(sb, b) || exists i: nat, s: nat :: i < |tab| && s < NSLOT && b != 0
                                                                    && Addr(tab[i], data, s) == b)
  {
    forall b | 0 <= b < sb.size && bits[b] && !Meta(sb, b)
      ensures exists i: nat, s: nat :: i < |tab| && s < NSLOT && b != 0 && Addr(tab[i], data, s) == b
    {
      var (i, s) := own[b];
      assert i < |tab| && s < NSLOT && b != 0 && Addr(tab[i], data, s) == b;
    }
  }

  /** A free block is in no slot and is no reserved sector. */
  lemma NotFree(sb: Super, tab: seq<Inode>, bits: seq<bool>, data: seq<Block>, own: map<nat, (nat, nat)>, j: nat,
                t: nat, b: nat)
    requires Owned(sb, tab, bits, data, own)
    requires j < |tab| && t < NSLOT && b < sb.size && !bits[b]
    ensures Addr(tab[j], data, t) != b && b !in own && !Meta(sb, b) && b != 0
  {
  }

  /** A new owner for a free block: if the slots change only by (i, s) getting b, ownership is kept. */
  lemma NewOwner(sb: Super, tab: seq<Inode>, bits: seq<bool>, data: seq<Block>, own: map<nat, (nat, nat)>,
                 tab': seq<Inode>, data': seq<Block>, i: nat, s: nat, b: nat)
    requires Owned(sb, tab, bits, data, own)
    requires i < |tab| == |tab'| && s < NSLOT && b < sb.size && !bits[b] && |data'| == |data|
    requires Addr(tab[i], data, s) == 0 && Addr(tab'[i], data', s) == b
    requires forall j: nat, t: nat :: j < |tab| && t < NSLOT && (j, t) != (i, s) ==>
               Addr(tab'[j], data', t) == Addr(tab[j], data, t)
    ensures Owned(sb, tab', bits[b := true], data', own[b := (i, s)])
  {
    hide Addr;
    NotFree(sb, tab, bits, data, own, i, s, b);
    var own' := own[b := (i, s)];
    forall j: nat, t: nat | j < |tab'| && t < NSLOT && Addr(tab'[j], data', t) != 0
      ensures Addr(tab'[j], data', t) in own' && own'[Addr(tab'[j], data', t)] == (j, t)
    {
      if (j, t) != (i, s) {
        assert Addr(tab'[j], data', t) == Addr(tab[j], data, t);
      }
    }
    forall c | c in own' ensures Addr(tab'[own'[c].0], data', own'[c].1) == c {
      if c != b {
        assert Addr(tab[own[c].0], data, own[c].1) == c;
      }
    }
  }

  /** Giving a free, zeroed block b to slot s <= NDIRECT of inode i. */
  lemma GiveDirect(sb: Super, tab: seq<Inode>, bits: seq<bool>, data: seq<Block>, own: map<nat, (nat, nat)>,
                   i: nat, s: nat, b: nat, tab': seq<Inode>, data': seq<Block>)
    requires Owned(sb, tab, bits, data, own)
    requires i < |tab| && s <= NDIRECT && tab[i].addrs[s] == 0 && b < sb.size && !bits[b]
    requires tab' == tab[i := tab[i].(addrs := tab[i].addrs[s := b])] && data' == data[b := ZeroBlock()]
    ensures Owned(sb, tab', bits[b := true], data', own[b := (i, s)])
    ensures forall j: nat, t: nat :: j < |tab| && t < NSLOT && (j, t) != (i, s) ==>
              Addr(tab'[j], data', t) == Addr(tab[j], data, t)
  {
    forall j: nat, t: nat | j < |tab| && t < NSLOT && (j, t) != (i, s)
      ensures Addr(tab'[j], data', t) == Addr(tab[j], data, t)
    {
      NotFree(sb, tab, bits, data, own, j, NDIRECT, b);
      if j == i && s == NDIRECT && t > NDIRECT {
        WordOfZero(t - NDIRECT - 1);
      }
    }
    NewOwner(sb, tab, bits, data, own, tab', data', i, s, b);
  }

  /** Giving a free, zeroed block b to entry n of inode i's indirect block. */
  lemma GiveIndirect(sb: Super, tab: seq<Inode>, bits: seq<bool>, data: seq<Block>, own: map<nat, (nat, nat)>,
                     i: nat, n: nat, s: nat, b: nat, ind: nat, data': seq<Block>)
    requires Owned(sb, tab, bits, data, own)
    requires i < |tab| && n < NINDIRECT && s == NDIRECT + 1 + n && ind == tab[i].addrs[NDIRECT] != 0
    requires b < sb.size && !bits[b] && Addr(tab[i], data, s) == 0 && ind < |data|
    requires data' == data[b := ZeroBlock()][ind := PutWord(data[ind], n, b)]
    ensures ind in own && own[ind] == (i, NDIRECT) && ind != b
    ensures Owned(sb, tab, bits[b := true], data', own[b := (i, s)])
    ensures Addr(tab[i], data', s) == b && b != 0
    ensures forall j: nat, t: nat :: j < |tab| && t < NSLOT && (j, t) != (i, s) ==>
              Addr(tab[j], data', t) == Addr(tab[j], data, t)
  {
    assert ind == Addr(tab[i], data, NDIRECT);
    NotFree(sb, tab, bits, data, own, i, NDIRECT, b);
    forall j: nat, t: nat | j < |tab| && t < NSLOT && (j, t) != (i, s)
      ensures Addr(tab[j], data', t) == Addr(tab[j], data, t)
    {
      NotFree(sb, tab, bits, data, own, j, NDIRECT, b);
      assert Addr(tab[j], data, NDIRECT) == ind ==> j == i;
      if j == i && t > NDIRECT {
        WordOfPutWord(data[ind], n, b, t - NDIRECT - 1);
      }
    }
    WordOfPutWord(data[ind], n, b, n);
    NewOwner(sb, tab, bits, data, own, tab, data', i, s, b);
  }

  /** Writing the contents of a file block moves no block. */
  lemma WriteData(sb: Super, tab: seq<Inode>, bits: seq<bool>, data: seq<Block>, own: map<nat, (nat, nat)>,
                  i: nat, s: nat, x: Block)
    requires Owned(sb, tab, bits, data, own)
    requires i < |tab| && s < NSLOT && s != NDIRECT && Addr(tab[i], data, s) != 0
    ensures Addr(tab[i], data, s) in own
    ensures var data' := data[Addr(tab[i], data, s) := x];
            && Owned(sb, tab, bits, data', own)
            && forall j: nat, t: nat :: j < |tab| && t < NSLOT ==> Addr(tab[j], data', t) == Addr(tab[j], data, t)
  {
    var a := Addr(tab[i], data, s);
    var data' := data[a := x];
    forall j: nat, t: nat | j < |tab| && t < NSLOT
      ensures Addr(tab[j], data', t) == Addr(tab[j], data, t)
    {
      assert Addr(tab[j], data, NDIRECT) != a;
    }
  }

  // ---------- file contents ----------

  /** Byte k of the file. */
  ghost function FileByte(d: Inode, data: seq<Block>, k: nat): byte
    requires k < MAXFILE * BSIZE
  {
    var a := Addr(d, data, SlotOf(k / BSIZE));
    if a < |data| then data[a][k % BSIZE] else 0
  }

  /** Every block that holds one of the first len bytes exists. */
  ghost predicate Mapped(d: Inode, data: seq<Block>, len: nat) {
    len <= MAXFILE * BSIZE && forall bn: nat :: bn * BSIZE < len ==> Addr(d, data, SlotOf(bn)) != 0
  }

  /** The first len bytes of the file. */
  ghost function Bytes(d: Inode, data: seq<Block>, len: nat): (s: seq<byte>)
    requires len <= MAXFILE * BSIZE
    ensures |s| == len
  {
    seq(len, k requires 0 <= k < len => FileByte(d, data, k))
  }

  ghost function Contents(d: Inode, data: seq<Block>): seq<byte>
    requires d.size <= MAXFILE * BSIZE
  {
    Bytes(d, data, d.size)
  }

  /** c with the bytes s written over it from offset off on, growing at the end if need be. */
  function Splice(c: seq<byte>, off: nat, s: seq<byte>): seq<byte>
    requires off <= |c|
  {
    if off + |s| <= |c| then c[..off] + s + c[off + |s|..] else c[..off] + s
  }

  lemma SpliceAt(c: seq<byte>, off: nat, s: seq<byte>, k: nat)
    requires off <= |c|
    ensures |Splice(c, off, s)| == if off + |s| <= |c| then |c| else off + |s|
    ensures k < |Splice(c, off, s)| ==>
              Splice(c, off, s)[k] == if off <= k < off + |s| then s[k - off] else c[k]
  {
  }

  // ---------- what bmap may do ----------

  /** From (tab, data, own) to (tab', data', own'), inode i got more blocks and nothing else moved:
      other inodes keep all their slots, i keeps those it had, no block of file data changed. */
  ghost predicate Grown(tab: seq<Inode>, data: seq<Block>, own: map<nat, (nat, nat)>,
                        tab': seq<Inode>, data': seq<Block>, own': map<nat, (nat, nat)>, i: nat)
    requires i < |tab|
  {
    && |tab'| == |tab| && |data'| == |data|
    && (forall j :: 0 <= j < |tab| && j != i ==> tab'[j] == tab[j])
    && tab'[i] == tab[i].(addrs := tab'[i].addrs)
    && (forall j: nat, t: nat :: j < |tab| && t < NSLOT && (j != i || Addr(tab[j], data, t) != 0) ==>
          Addr(tab'[j], data', t) == Addr(tab[j], data, t))
    && (forall b :: b in own ==> b in own' && own'[b] == own[b])
    && (forall b :: b in own && 0 <= b < |data| && own[b].1 != NDIRECT ==> data'[b] == data[b])
  }

  lemma GrownDirect(sb: Super, tab: seq<Inode>, bits: seq<bool>, data: seq<Block>, own: map<nat, (nat, nat)>,
                    i: nat, s: nat, b: nat, tab': seq<Inode>, data': seq<Block>)
    requires Owned(sb, tab, bits, data, own)
    requires i < |tab| && s <= NDIRECT && tab[i].addrs[s] == 0 && b < sb.size && !bits[b]
    requires tab' == tab[i := tab[i].(addrs := tab[i].addrs[s := b])] && data' == data[b := ZeroBlock()]
    ensures Owned(sb, tab', bits[b := true], data', own[b := (i, s)]) && b != 0
    ensures Grown(tab, data, own, tab', data', own[b := (i, s)], i)
    ensures forall t: nat :: t < NSLOT && t != s ==> Addr(tab'[i], data', t) == Addr(tab[i], data, t)
  {
    GiveDirect(sb, tab, bits, data, own, i, s, b, tab', data');
    NotFree(sb, tab, bits, data, own, i, s, b);
  }

  lemma GrownIndirect(sb: Super, tab: seq<Inode>, bits: seq<bool>, data: seq<Block>, own: map<nat, (nat, nat)>,
                      i: nat, n: nat, s: nat, b: nat, ind: nat, data': seq<Block>)
    requires Owned(sb, tab, bits, data, own)
    requires i < |tab| && n < NINDIRECT && s == NDIRECT + 1 + n && ind == tab[i].addrs[NDIRECT] != 0
    requires b < sb.size && !bits[b] && Addr(tab[i], data, s) == 0 && ind < |data|
    requires data' == data[b := ZeroBlock()][ind := PutWord(data[ind], n, b)]
    ensures Owned(sb, tab, bits[b := true], data', own[b := (i, s)]) && b != 0 && b != ind
    ensures Addr(tab[i], data', s) == b && data'[b] == ZeroBlock()
    ensures Grown(tab, data, own, tab, data', own[b := (i, s)], i)
    ensures forall t: nat :: t < NSLOT && t != s ==> Addr(tab[i], data', t) == Addr(tab[i], data, t)
  {
    GiveIndirect(sb, tab, bits, data, own, i, n, s, b, ind, data');
    NotFree(sb, tab, bits, data, own, i, s, b);
  }

  lemma GrownNot(tab: seq<Inode>, data: seq<Block>, own: map<nat, (nat, nat)>, i: nat)
    requires i < |tab|
    ensures Grown(tab, data, own, tab, data, own, i)
  {
  }

  lemma OwnedSizes(sb: Super, tab: seq<Inode>, bits: seq<bool>, data: seq<Block>, own: map<nat, (nat, nat)>)
    requires Owned(sb, tab, bits, data, own)
    ensures |bits| == |data| == sb.size <= UINT_LIMIT
  {
  }

  /** A slot in use names a block in the data area. */
  lemma SlotInRange(sb: Super, tab: seq<Inode>, bits: seq<bool>, data: seq<Block>, own: map<nat, (nat, nat)>, i: nat,
                    s: nat)
    requires Owned(sb, tab, bits, data, own) && i < |tab| && s < NSLOT && Addr(tab[i], data, s) != 0
    ensures Addr(tab[i], data, s) < sb.size == |data| && bits[Addr(tab[i], data, s)] && !Meta(sb, Addr(tab[i], data, s))
  {
  }

  lemma GrownTransitive(tab0: seq<Inode>, data0: seq<Block>, own0: map<nat, (nat, nat)>,
                        tab1: seq<Inode>, data1: seq<Block>, own1: map<nat, (nat, nat)>,
                        tab2: seq<Inode>, data2: seq<Block>, own2: map<nat, (nat, nat)>, i: nat)
    requires i < |tab0| && Grown(tab0, data0, own0, tab1, data1, own1, i)
    requires Grown(tab1, data1, own1, tab2, data2, own2, i)
    ensures Grown(tab0, data0, own0, tab2, data2, own2, i)
  {
    forall j: nat, t: nat | j < |tab0| && t < NSLOT && (j != i || Addr(tab0[j], data0, t) != 0)
      ensures Addr(tab2[j], data2, t) == Addr(tab0[j], data0, t)
    {
      assert Addr(tab1[j], data1, t) == Addr(tab0[j], data0, t);
    }
  }

  /** Growing an inode changes no byte of any file. */
  lemma GrownKeepsBytes(sb: Super, bits: seq<bool>, tab: seq<Inode>, data: seq<Block>, own: map<nat, (nat, nat)>,
                        tab': seq<Inode>, data': seq<Block>, own': map<nat, (nat, nat)>, i: nat, j: nat, len: nat)
    requires Owned(sb, tab, bits, data, own) && i < |tab| && j < |tab|
    requires Grown(tab, data, own, tab', data', own', i) && Mapped(tab[j], data, len)
    ensures Mapped(tab'[j], data', len) && Bytes(tab'[j], data', len) == Bytes(tab[j], data, len)
  {
    forall bn: nat | bn * BSIZE < len ensures Addr(tab'[j], data', SlotOf(bn)) != 0 {
      assert Addr(tab[j], data, SlotOf(bn)) != 0;
    }
    forall k: nat | k < len ensures FileByte(tab'[j], data', k) == FileByte(tab[j], data, k) {
      var bn := k / BSIZE;
      assert bn * BSIZE < len;
      var a := Addr(tab[j], data, SlotOf(bn));
      assert a != 0 && own[a] == (j, SlotOf(bn));
    }
  }

  // ---------- writing into a block ----------

  /** The block x with `chunk` copied to offset o. */
  function Patch(x: Block, o: nat, chunk: seq<byte>): Block
    requires o + |chunk| <= BSIZE
  {
    x[..o] + chunk + x[o + |chunk|..]
  }

  /** Patching block bn of inode i changes exactly the patched bytes, of that file only. */
  lemma BytesAfterPatch(sb: Super, tab: seq<Inode>, bits: seq<bool>, data: seq<Block>, own: map<nat, (nat, nat)>,
                        i: nat, bn: nat, o: nat, chunk: seq<byte>, j: nat, k: nat)
    requires Owned(sb, tab, bits, data, own)
    requires i < |tab| && bn < MAXFILE && Addr(tab[i], data, SlotOf(bn)) != 0 && o + |chunk| <= BSIZE
    requires j < |tab| && k < MAXFILE * BSIZE && Addr(tab[j], data, SlotOf(k / BSIZE)) != 0
    ensures Addr(tab[i], data, SlotOf(bn)) < |data|
    ensures var a := Addr(tab[i], data, SlotOf(bn));
            var data' := data[a := Patch(data[a], o, chunk)];
            FileByte(tab[j], data', k) ==
              if j == i && bn * BSIZE + o <= k < bn * BSIZE + o + |chunk| then chunk[k - bn * BSIZE - o]
              else FileByte(tab[j], data, k)
  {
    var s := SlotOf(bn);
    var a := Addr(tab[i], data, s);
    assert a in own && own[a] == (i, s);
    var x := Patch(data[a], o, chunk);
    WriteData(sb, tab, bits, data, own, i, s, x);
    var t := SlotOf(k / BSIZE);
    var c := Addr(tab[j], data, t);
    assert c in own && own[c] == (j, t);
    var data' := data[a := x];
    assert Addr(tab[j], data', t) == c;
    if c == a {
      assert j == i && k / BSIZE == bn;
      var r := k % BSIZE;
      assert x[r] == if o <= r < o + |chunk| then chunk[r - o] else data[a][r];
    } else {
      assert !(j == i && k / BSIZE == bn);
    }
  }

  /** The block of inode i that holds file block bn, after copying chunk to offset o of it. */
  ghost function Patched(tab: seq<Inode>, data: seq<Block>, i: nat, bn: nat, o: nat, chunk: seq<byte>): seq<Block>
    requires i < |tab| && bn < MAXFILE && o + |chunk| <= BSIZE && Addr(tab[i], data, SlotOf(bn)) < |data|
  {
    var a := Addr(tab[i], data, SlotOf(bn));
    data[a := Patch(data[a], o, chunk)]
  }

  lemma PatchKeepsOwned(sb: Super, tab: seq<Inode>, bits: seq<bool>, data: seq<Block>, own: map<nat, (nat, nat)>,
                        i: nat, bn: nat, o: nat, chunk: seq<byte>)
    requires Owned(sb, tab, bits, data, own)
    requires i < |tab| && bn < MAXFILE && Addr(tab[i], data, SlotOf(bn)) != 0 && o + |chunk| <= BSIZE
    ensures Addr(tab[i], data, SlotOf(bn)) < |data|
    ensures var data' := Patched(tab, data, i, bn, o, chunk);
            && Owned(sb, tab, bits, data', own)
            && forall j: nat, t: nat :: j < |tab| && t < NSLOT ==> Addr(tab[j], data', t) == Addr(tab[j], data, t)
  {
    var s := SlotOf(bn);
    SlotInRange(sb, tab, bits, data, own, i, s);
    WriteData(sb, tab, bits, data, own, i, s, Patch(data[Addr(tab[i], data, s)], o, chunk));
  }

  /** Patching a block of file i leaves every other file as it was. */
  lemma PatchKeepsOthers(sb: Super, tab: seq<Inode>, bits: seq<bool>, data: seq<Block>, own: map<nat, (nat, nat)>,
                         i: nat, bn: nat, o: nat, chunk: seq<byte>, j: nat, len: nat)
    requires Owned(sb, tab, bits, data, own)
    requires i < |tab| && bn < MAXFILE && 0 != Addr(tab[i], data, SlotOf(bn)) < |data| && o + |chunk| <= BSIZE
    requires j < |tab| && j != i && Mapped(tab[j], data, len)
    ensures var data' := Patched(tab, data, i, bn, o, chunk);
            Mapped(tab[j], data', len) && Bytes(tab[j], data', len) == Bytes(tab[j], data, len)
  {
    PatchKeepsOwned(sb, tab, bits, data, own, i, bn, o, chunk);
    var data' := Patched(tab, data, i, bn, o, chunk);
    forall k: nat | k < len ensures FileByte(tab[j], data', k) == FileByte(tab[j], data, k) {
      assert k / BSIZE * BSIZE < len;
      BytesAfterPatch(sb, tab, bits, data, own, i, bn, o, chunk, j, k);
    }
  }

  function Max(a: nat, b: nat): nat { if a < b then b else a }

  /** One round of writei's loop: the bytes of src from tot to tot' are in the file. */
  lemma WriteStep(sb: Super, tab: seq<Inode>, bits: seq<bool>, data: seq<Block>, own: map<nat, (nat, nat)>,
                  i: nat, c: seq<byte>, off: nat, src: seq<byte>, tot: nat, tot': nat, pos: nat, pos': nat, bn: nat)
    requires Owned(sb, tab, bits, data, own) && i < |tab|
    requires off <= |c| <= MAXFILE * BSIZE && pos == off + tot && bn == pos / BSIZE
    requires tot < tot' <= |src| && pos' == off + tot' <= MAXFILE * BSIZE && pos' - pos <= BSIZE - pos % BSIZE
    requires Mapped(tab[i], data, Max(|c|, pos)) && Bytes(tab[i], data, Max(|c|, pos)) == Splice(c, off, src[..tot])
    requires 0 != Addr(tab[i], data, SlotOf(bn)) < |data|
    ensures var data' := Patched(tab, data, i, bn, pos % BSIZE, src[tot..tot']);
            && Mapped(tab[i], data', Max(|c|, pos'))
            && Bytes(tab[i], data', Max(|c|, pos')) == Splice(c, off, src[..tot'])
  {
    hide Owned, Splice, Addr, FileByte;
    var data' := Patched(tab, data, i, bn, pos % BSIZE, src[tot..tot']);
    PatchKeepsOwned(sb, tab, bits, data, own, i, bn, pos % BSIZE, src[tot..tot']);
    var len := Max(|c|, pos');
    MappedFurther(tab[i], data, |c|, pos, pos', bn);
    SpliceAt(c, off, src[..tot'], 0);
    forall k: nat | k < len ensures FileByte(tab[i], data', k) == Splice(c, off, src[..tot'])[k] {
      assert k / BSIZE * BSIZE < len;
      WriteByte(sb, tab, bits, data, own, i, c, off, src, tot, tot', pos, pos', bn, k);
    }
  }

  /** With block bn present, the file is mapped up to any position inside it. */
  lemma MappedFurther(d: Inode, data: seq<Block>, size: nat, pos: nat, pos': nat, bn: nat)
    requires Mapped(d, data, Max(size, pos)) && bn == pos / BSIZE && bn < MAXFILE && Addr(d, data, SlotOf(bn)) != 0
    requires pos < pos' <= MAXFILE * BSIZE && pos' - pos <= BSIZE - pos % BSIZE
    ensures Mapped(d, data, Max(size, pos'))
  {
    forall b: nat | b * BSIZE < Max(size, pos') ensures Addr(d, data, SlotOf(b)) != 0 {
      if b * BSIZE >= Max(size, pos) {
        assert b == bn;
      }
    }
  }

  lemma WriteByte(sb: Super, tab: seq<Inode>, bits: seq<bool>, data: seq<Block>, own: map<nat, (nat, nat)>, i: nat,
                  c: seq<byte>, off: nat, src: seq<byte>, tot: nat, tot': nat, pos: nat, pos': nat, bn: nat, k: nat)
    requires Owned(sb, tab, bits, data, own) && i < |tab|
    requires off <= |c| <= MAXFILE * BSIZE && pos == off + tot && bn == pos / BSIZE
    requires tot < tot' <= |src| && pos' == off + tot' <= MAXFILE * BSIZE && pos' - pos <= BSIZE - pos % BSIZE
    requires Bytes(tab[i], data, Max(|c|, pos)) == Splice(c, off, src[..tot])
    requires 0 != Addr(tab[i], data, SlotOf(bn)) < |data|
    requires k < Max(|c|, pos') && Addr(tab[i], data, SlotOf(k / BSIZE)) != 0
    ensures k < |Splice(c, off, src[..tot'])|
    ensures FileByte(tab[i], Patched(tab, data, i, bn, pos % BSIZE, src[tot..tot']), k)
            == Splice(c, off, src[..tot'])[k]
  {
    hide Owned, Splice;
    BytesAfterPatch(sb, tab, bits, data, own, i, bn, pos % BSIZE, src[tot..tot'], i, k);
    SpliceAt(c, off, src[..tot'], k);
    SpliceAt(c, off, src[..tot], k);
    if !(pos <= k < pos') {
      assert k < Max(|c|, pos);
      assert FileByte(tab[i], data, k) == Bytes(tab[i], data, Max(|c|, pos))[k];
    }
  }

  lemma SpliceNone(c: seq<byte>, off: nat)
    requires off <= |c|
    ensures Splice(c, off, []) == c
  {
  }

  /** Ownership only looks at the addresses. */
  lemma OwnedByAddrs(sb: Super, tab: seq<Inode>, tab': seq<Inode>, bits: seq<bool>, data: seq<Block>,
                     own: map<nat, (nat, nat)>)
    requires Owned(sb, tab, bits, data, own)
    requires |tab'| == |tab| && forall j :: 0 <= j < |tab| ==> tab'[j].addrs == tab[j].addrs
    ensures Owned(sb, tab', bits, data, own)
  {
    assert forall j: nat, t: nat :: j < |tab| && t < NSLOT ==> Addr(tab'[j], data, t) == Addr(tab[j], data, t);
  }

  /** So do the contents. */
  lemma BytesByAddrs(d: Inode, d': Inode, data: seq<Block>, len: nat)
    requires d'.addrs == d.addrs && Mapped(d, data, len)
    ensures Mapped(d', data, len) && Bytes(d', data, len) == Bytes(d, data, len)
    ensures forall t: nat :: t < NSLOT ==> Addr(d', data, t) == Addr(d, data, t)
  {
    assert forall t: nat :: t < NSLOT ==> Addr(d', data, t) == Addr(d, data, t);
    assert forall k: nat :: k < len ==> FileByte(d', data, k) == FileByte(d, data, k);
  }

  // ---------- truncation ----------

  /** `bits` is `bits0` with the blocks in the slots `freed` of inode i given back. */
  ghost predicate Returned(bits0: seq<bool>, bits: seq<bool>, own: map<nat, (nat, nat)>, i: nat, freed: set<nat>) {
    && |bits| == |bits0|
    && forall b :: 0 <= b < |bits| ==> bits[b] == (bits0[b] && !(b in own && own[b].0 == i && own[b].1 in freed))
  }

  /** Giving back slot s: its block is marked in use, so bfree does not panic. */
  lemma ReturnSlot(sb: Super, tab: seq<Inode>, bits0: seq<bool>, data: seq<Block>, own: map<nat, (nat, nat)>,
                   bits: seq<bool>, i: nat, freed: set<nat>, s: nat)
    requires Owned(sb, tab, bits0, data, own) && i < |tab| && s < NSLOT && s !in freed
    requires Returned(bits0, bits, own, i, freed)
    ensures var a := Addr(tab[i], data, s);
            && (a != 0 ==> a < |bits| && bits[a] && Returned(bits0, bits[a := false], own, i, freed + {s}))
            && (a == 0 ==> Returned(bits0, bits, own, i, freed + {s}))
  {
  }

  /** After all slots of inode i: ownership without inode i's blocks. */
  lemma AllReturned(sb: Super, tab: seq<Inode>, bits0: seq<bool>, data: seq<Block>, own: map<nat, (nat, nat)>,
                    bits: seq<bool>, i: nat, freed: set<nat>, tab': seq<Inode>, own': map<nat, (nat, nat)>)
    requires Owned(sb, tab, bits0, data, own) && i < |tab|
    requires Returned(bits0, bits, own, i, freed) && forall s: nat :: s < NSLOT ==> s in freed
    requires |tab'| == |tab| && forall j :: 0 <= j < |tab| && j != i ==> tab'[j] == tab[j]
    requires tab'[i].addrs == seq(13, _ => 0)
    requires own' == map b | b in own && own[b].0 != i :: own[b]
    ensures Owned(sb, tab', bits, data, own')
    ensures forall b :: 0 <= b < |bits| ==> (bits[b] <==> bits0[b] && !(b in own && own[b].0 == i))
  {
    assert forall t: nat :: t < NSLOT ==> Addr(tab'[i], data, t) == 0;
    assert forall j: nat, t: nat :: j < |tab| && j != i && t < NSLOT ==>
           Addr(tab'[j], data, t) == Addr(tab[j], data, t);
    forall j: nat, t: nat | j < |tab'| && t < NSLOT && Addr(tab'[j], data, t) != 0
      ensures Addr(tab'[j], data, t) in own' && own'[Addr(tab'[j], data, t)] == (j, t)
    {
      assert Addr(tab[j], data, t) in own;
    }
  }
}
