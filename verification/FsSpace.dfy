/** How many blocks are free and how many a write needs: the exact condition of the panic "balloc: out of
    blocks" of xv6/fs.c. */
module FsSpace {
  import opened Blocks
  import opened FsState

  // ---------- free blocks ----------

  function FreeCount(bits: seq<bool>): nat {
    if bits == [] then 0
    else FreeCount(bits[..|bits| - 1]) + if bits[|bits| - 1] then 0 else 1
  }

  /** Taking a free block leaves one less. */
  lemma {:induction false} FreeTaken(bits: seq<bool>, b: nat)
    requires b < |bits| && !bits[b]
    ensures FreeCount(bits) == FreeCount(bits[b := true]) + 1
  {
    var n := |bits| - 1;
    if b < n {
      FreeTaken(bits[..n], b);
      assert bits[b := true][..n] == bits[..n][b := true];
    } else {
      assert bits[b := true][..n] == bits[..n];
    }
  }

  lemma {:induction false} FreeNone(bits: seq<bool>)
    ensures FreeCount(bits) == 0 <==> forall b :: 0 <= b < |bits| ==> bits[b]
  {
    if bits != [] {
      FreeNone(bits[..|bits| - 1]);
    }
  }

  // ---------- missing blocks ----------

  /** The blocks lo, ..., hi - 1 of the file that do not exist. */
  function Holes(d: Inode, data: seq<Block>, lo: nat, hi: nat): nat
    requires lo <= hi <= MAXFILE
    decreases hi - lo
  {
    if lo == hi then 0
    else (if Addr(d, data, SlotOf(lo)) == 0 then 1 else 0) + Holes(d, data, lo + 1, hi)
  }

  /** The blocks that writing to them takes: those, and the indirect block if it is needed and absent. */
  function Missing(d: Inode, data: seq<Block>, lo: nat, hi: nat): nat
    requires lo <= hi <= MAXFILE
  {
    Holes(d, data, lo, hi) + if lo < hi && hi > NDIRECT && d.addrs[NDIRECT] == 0 then 1 else 0
  }

  /** The block behind the last one that a write of n bytes at offset off touches. */
  function EndBlock(off: nat, n: nat): nat { (off + n + BSIZE - 1) / BSIZE }

  lemma BlockRange(off: nat, n: nat)
    requires off + n <= MAXFILE * BSIZE
    ensures off / BSIZE <= EndBlock(off, n) <= MAXFILE
  {
  }

  /** What a write of n bytes at offset off takes. */
  function MissingFor(d: Inode, data: seq<Block>, off: nat, n: nat): nat
    requires off + n <= MAXFILE * BSIZE
  {
    BlockRange(off, n);
    Missing(d, data, off / BSIZE, EndBlock(off, n))
  }

  /** The slots in use of d are slots of d' with the same block. */
  ghost predicate SlotsKept(d: Inode, data: seq<Block>, d': Inode, data': seq<Block>) {
    forall t: nat :: t < NSLOT && Addr(d, data, t) != 0 ==> Addr(d', data', t) == Addr(d, data, t)
  }

  /** Only slot s may differ. */
  ghost predicate OneSlot(d: Inode, data: seq<Block>, d': Inode, data': seq<Block>, s: nat) {
    forall t: nat :: t < NSLOT && t != s ==> Addr(d', data', t) == Addr(d, data, t)
  }

  /** Now the blocks lo, ..., hi - 1 exist, and no other slot has changed but the indirect block's. */
  ghost predicate Fills(d: Inode, data: seq<Block>, d': Inode, data': seq<Block>, lo: nat, hi: nat) {
    && SlotsKept(d, data, d', data')
    && (forall bn: nat :: bn < MAXFILE && !(lo <= bn < hi) ==> Addr(d', data', SlotOf(bn)) == Addr(d, data, SlotOf(bn)))
    && (forall bn: nat :: bn < MAXFILE && lo <= bn < hi ==> Addr(d', data', SlotOf(bn)) != 0)
    && (hi <= lo || hi <= NDIRECT ==> d'.addrs[NDIRECT] == d.addrs[NDIRECT])
  }

  lemma FillsNone(d: Inode, data: seq<Block>, lo: nat, hi: nat, len: nat)
    requires Mapped(d, data, len) && (lo < hi ==> (hi - 1) * BSIZE < len)
    ensures Fills(d, data, d, data, lo, hi)
  {
    forall bn: nat | bn < MAXFILE && lo <= bn < hi ensures Addr(d, data, SlotOf(bn)) != 0 {
      assert bn * BSIZE < len;
    }
  }

  /** The size plays no part. */
  lemma FillsSame(d: Inode, data: seq<Block>, d1: Inode, d2: Inode, data': seq<Block>, lo: nat, hi: nat)
    requires Fills(d, data, d1, data', lo, hi) && d2.addrs == d1.addrs
    ensures Fills(d, data, d2, data', lo, hi)
  {
    forall t: nat | t < NSLOT ensures Addr(d2, data', t) == Addr(d1, data', t) {
    }
    hide Addr;
  }

  /** One slot filled, one more block. */
  lemma FillsOne(d: Inode, data: seq<Block>, d': Inode, data': seq<Block>, bn: nat, end: nat)
    requires bn < MAXFILE && end == bn + 1 && SlotsKept(d, data, d', data') && Addr(d', data', SlotOf(bn)) != 0
    requires forall t: nat :: t < NSLOT && t != SlotOf(bn) && t != NDIRECT ==> Addr(d', data', t) == Addr(d, data, t)
    requires bn < NDIRECT ==> d'.addrs[NDIRECT] == d.addrs[NDIRECT]
    ensures Fills(d, data, d', data', bn, end)
  {
    hide Addr;
  }

  lemma FillsMore(d: Inode, data: seq<Block>, d1: Inode, data1: seq<Block>, d2: Inode, data2: seq<Block>,
                  lo: nat, mid: nat, bn: nat, end: nat)
    requires Fills(d, data, d1, data1, lo, mid) && Fills(d1, data1, d2, data2, bn, end)
    requires lo <= bn <= mid <= end <= MAXFILE
    ensures Fills(d, data, d2, data2, lo, end)
  {
    assert d1.addrs[NDIRECT] == Addr(d1, data1, NDIRECT) && d2.addrs[NDIRECT] == Addr(d2, data2, NDIRECT);
    hide Addr;
  }

  lemma {:induction false} HolesSplit(d: Inode, data: seq<Block>, lo: nat, mid: nat, hi: nat)
    requires lo <= mid <= hi <= MAXFILE
    ensures Holes(d, data, lo, mid) + Holes(d, data, mid, hi) == Holes(d, data, lo, hi)
    decreases mid - lo
  {
    hide Addr;
    if lo < mid {
      HolesSplit(d, data, lo + 1, mid, hi);
    }
  }

  lemma {:induction false} HolesNone(d: Inode, data: seq<Block>, lo: nat, hi: nat)
    requires lo <= hi <= MAXFILE && forall bn: nat :: lo <= bn < hi ==> Addr(d, data, SlotOf(bn)) != 0
    ensures Holes(d, data, lo, hi) == 0
    decreases hi - lo
  {
    hide Addr;
    if lo < hi {
      HolesNone(d, data, lo + 1, hi);
    }
  }

  lemma {:induction false} HolesSame(d: Inode, data: seq<Block>, d': Inode, data': seq<Block>, lo: nat, hi: nat)
    requires lo <= hi <= MAXFILE
    requires forall bn: nat :: lo <= bn < hi ==> Addr(d', data', SlotOf(bn)) == Addr(d, data, SlotOf(bn))
    ensures Holes(d', data', lo, hi) == Holes(d, data, lo, hi)
    decreases hi - lo
  {
    hide Addr;
    if lo < hi {
      HolesSame(d, data, d', data', lo + 1, hi);
    }
  }

  /** A WRITE IN TWO PARTS TAKES WHAT IT TAKES IN ONE, also when the second part starts in the last block of the
      first. */
  lemma MissingSplit(d: Inode, data: seq<Block>, d': Inode, data': seq<Block>, lo: nat, mid: nat, bn: nat, hi: nat)
    requires Fills(d, data, d', data', lo, mid) && lo <= bn <= mid <= hi <= MAXFILE
    ensures Missing(d, data, lo, hi) == Missing(d, data, lo, mid) + Missing(d', data', bn, hi)
  {
    HolesSplit(d, data, lo, mid, hi);
    HolesSplit(d', data', bn, mid, hi);
    HolesNone(d', data', bn, mid);
    HolesSame(d, data, d', data', mid, hi);
    if lo < mid && mid > NDIRECT {
      assert Addr(d', data', SlotOf(mid - 1)) != 0;
    }
  }

  lemma MissingGrows(d: Inode, data: seq<Block>, lo: nat, mid: nat, hi: nat)
    requires lo <= mid <= hi <= MAXFILE
    ensures Missing(d, data, lo, mid) <= Missing(d, data, lo, hi)
  {
    HolesSplit(d, data, lo, mid, hi);
  }

  /** Bytes that exist need nothing. */
  lemma MissingNone(d: Inode, data: seq<Block>, off: nat, n: nat)
    requires Mapped(d, data, off + n)
    ensures MissingFor(d, data, off, n) == 0
  {
    var lo, hi := off / BSIZE, EndBlock(off, n);
    BlockRange(off, n);
    forall bn: nat | lo <= bn < hi ensures Addr(d, data, SlotOf(bn)) != 0 {
      assert bn * BSIZE < off + n;
    }
    HolesNone(d, data, lo, hi);
    if lo < hi && hi > NDIRECT {
      assert Addr(d, data, SlotOf(hi - 1)) != 0;
    }
  }

  /** One block. */
  lemma MissingOne(d: Inode, data: seq<Block>, bn: nat, end: nat)
    requires bn < MAXFILE && end == bn + 1
    ensures Missing(d, data, bn, end) ==
            if Addr(d, data, SlotOf(bn)) != 0 then 0 else if bn >= NDIRECT && d.addrs[NDIRECT] == 0 then 2 else 1
  {
    assert Holes(d, data, end, end) == 0;
  }
}
