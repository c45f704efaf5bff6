/** filewrite of xv6/file.c: a long write cut into transactions that the log can hold. */
module File {
  import opened Blocks
  import opened FsState
  import opened FsSpace
  import opened FsImage
  import opened Fs
  import opened LogSpec

  /** ((LOGSIZE-1-1-2) / 2) * 512 */
  const CHUNK := 1536

  /** How many bytes of a write of n bytes at offset off are taken, from byte i on: whole chunks, up
      to the first one that would not fit. */
  function Taken(off: nat, n: nat, i: nat): (t: nat)
    requires i <= n
    ensures i <= t <= n && (off + i <= MAXFILE * BSIZE ==> off + t <= MAXFILE * BSIZE)
    decreases n - i
  {
    var n1 := Min(n - i, CHUNK);
    if i < n && off + i + n1 <= MAXFILE * BSIZE then Taken(off, n, i + n1) else i
  }

  /** A write that fits is taken whole; one that does not loses at most its last chunk. */
  lemma {:induction false} TakenWhole(off: nat, n: nat, i: nat)
    requires i <= n && off + i <= MAXFILE * BSIZE
    ensures Taken(off, n, i) == n <==> off + n <= MAXFILE * BSIZE || i == n
    ensures Taken(off, n, i) < n ==> off + Taken(off, n, i) + Min(n - Taken(off, n, i), CHUNK) > MAXFILE * BSIZE
    decreases n - i
  {
    var n1 := Min(n - i, CHUNK);
    if i < n && off + i + n1 <= MAXFILE * BSIZE {
      TakenWhole(off, n, i + n1);
    }
  }

  lemma SpliceTwice(c: seq<byte>, off: nat, s: seq<byte>, t: seq<byte>, mid: nat)
    requires off <= |c| && mid == off + |s|
    ensures mid <= |Splice(c, off, s)| && Splice(Splice(c, off, s), mid, t) == Splice(c, off, s + t)
  {
  }

  // ---------- how many sectors a chunk logs ----------

  lemma {:induction false} DataSectorsCount(d: Inode, data: seq<Block>, lo: nat, hi: nat)
    requires lo <= hi <= MAXFILE
    ensures |DataSectors(d, data, lo, hi)| <= hi - lo
    decreases hi
  {
    if lo < hi {
      DataSectorsCount(d, data, lo, hi - 1);
      assert DataSectors(d, data, lo, hi) == DataSectors(d, data, lo, hi - 1) + {Addr(d, data, SlotOf(hi - 1))};
    } else {
      assert DataSectors(d, data, lo, hi) == {};
    }
  }

  /** On an image whose bitmap is one sector, a chunk at any offset logs at most 7 sectors: four
      blocks, the indirect block, the bitmap and the inode. */
  lemma ChunkSectors(sb: Super, d: Inode, data: seq<Block>, inum: nat, off: nat, n: nat, hi: nat, logged: set<nat>)
    requires sb.size <= BPB && n <= CHUNK && off + n <= MAXFILE * BSIZE && hi == (off + n + BSIZE - 1) / BSIZE
    requires logged <= {IBlock(inum)} + BitmapSectors(sb) + IndirectSectors(d) + DataSectors(d, data, off / BSIZE, hi)
    ensures |logged| <= 7
  {
    var blocks := DataSectors(d, data, off / BSIZE, hi);
    DataSectorsCount(d, data, off / BSIZE, hi);
    assert |blocks| <= 4;
    var meta := {IBlock(inum), BBlock(sb, 0)} + IndirectSectors(d);
    assert BitmapSectors(sb) <= {BBlock(sb, 0)} by {
      forall b: nat | b < sb.size ensures BBlock(sb, b) == BBlock(sb, 0) {
        assert b / BPB == 0;
      }
    }
    assert logged <= meta + blocks;
    SubsetCount(logged, meta + blocks);
    SubsetCount(meta + blocks, meta + blocks);
  }

  lemma {:induction false} SubsetCount(a: set<nat>, b: set<nat>)
    requires a <= b
    ensures |a| <= |b|
  {
    if a != {} {
      var x :| x in a;
      SubsetCount(a - {x}, b - {x});
    }
  }

  /** The panic "too big a transaction" is out of reach: any transaction whose sectors are among
      fewer sectors than the log holds is legal. */
  lemma {:induction false} FewSectorsAreLegal(g: Geometry, d: Disk, tx: Transaction, sectors: set<nat>)
    requires |sectors| < Capacity(g)
    requires forall i :: 0 <= i < |tx| ==> tx[i].sector in sectors
    requires forall s :: s in sectors ==> s < |d| && !InLog(g, s)
    ensures Legal(g, d, tx)
    ensures forall s :: s in LoggedSectors(tx) ==> s in sectors
    ensures forall i, j :: 0 <= i < j < |LoggedSectors(tx)| ==>
              LoggedSectors(tx)[i] != LoggedSectors(tx)[j]
    ensures |LoggedSectors(tx)| <= |sectors|
  {
    if tx != [] {
      FewSectorsAreLegal(g, d, tx[..|tx| - 1], sectors);
    }
    DistinctWithin(LoggedSectors(tx), sectors);
  }

  lemma {:induction false} DistinctWithin(xs: seq<nat>, s: set<nat>)
    requires forall i, j :: 0 <= i < j < |xs| ==> xs[i] != xs[j]
    requires forall x :: x in xs ==> x in s
    ensures |xs| <= |s|
  {
    if xs != [] {
      var last := xs[|xs| - 1];
      DistinctWithin(xs[..|xs| - 1], s - {last});
    }
  }

  /** The log lies behind the inode and bitmap blocks, and inode inum is one of the inodes. */
  predicate Layout(sb: Super, inum: nat) { DataStart(sb) <= LogStart(sb) && inum < sb.ninodes }

  /** On an image whose bitmap is one sector, at most 7 sectors; none of them in the log. */
  ghost predicate Small(sb: Super, inum: nat, logged: set<nat>) {
    && (sb.size <= BPB ==> |logged| <= 7)
    && (Layout(sb, inum) ==> forall s :: s in logged ==> s < LogStart(sb))
  }

  lemma SmallNone(sb: Super, inum: nat)
    ensures Small(sb, inum, {})
  {
  }

  lemma ChunkIsSmall(sb: Super, tab: seq<Inode>, bits: seq<bool>, data: seq<Block>, own: map<nat, (nat, nat)>,
                     inum: nat, off: nat, n: nat, hi: nat, logged: set<nat>)
    requires Owned(sb, tab, bits, data, own) && inum < |tab|
    requires n <= CHUNK && off + n <= MAXFILE * BSIZE && hi == (off + n + BSIZE - 1) / BSIZE
    requires logged
             <= {IBlock(inum)} + BitmapSectors(sb) + IndirectSectors(tab[inum])
             + DataSectors(tab[inum], data, off / BSIZE, hi)
    ensures Small(sb, inum, logged)
  {
    if sb.size <= BPB {
      ChunkSectors(sb, tab[inum], data, inum, off, n, hi, logged);
    }
    if Layout(sb, inum) {
      forall s | s in logged ensures s < LogStart(sb) {
        BelowLog(sb, tab, bits, data, own, inum, off / BSIZE, hi, s);
      }
    }
  }

  lemma BelowLog(sb: Super, tab: seq<Inode>, bits: seq<bool>, data: seq<Block>, own: map<nat, (nat, nat)>,
                 inum: nat, lo: nat, hi: nat, s: nat)
    requires Owned(sb, tab, bits, data, own) && inum < |tab| && Layout(sb, inum) && hi <= MAXFILE
    requires s in {IBlock(inum)} + BitmapSectors(sb) + IndirectSectors(tab[inum]) + DataSectors(tab[inum], data, lo, hi)
    ensures s < LogStart(sb)
  {
    if s in BitmapSectors(sb) {
      var b: nat :| b < sb.size && s == BBlock(sb, b);
      assert b / BPB <= sb.size / BPB;
    } else if s in IndirectSectors(tab[inum]) {
      assert Addr(tab[inum], data, NDIRECT) == s;
      assert s in own;
    } else if s in DataSectors(tab[inum], data, lo, hi) {
      var b: nat :| lo <= b < hi && s == Addr(tab[inum], data, SlotOf(b));
      assert s == 0 || s in own;
    } else {
      assert inum / IPB <= sb.ninodes / IPB;
    }
  }

  // ---------- the disk between transactions ----------

  /** All blocks of file inum lie in the data area. */
  ghost predicate Placed(sb: Super, v: Parts, inum: nat)
    requires inum < |v.inodes|
  {
    forall t: nat :: t < NSLOT && Addr(v.inodes[inum], v.data, t) != 0 ==>
      Addr(v.inodes[inum], v.data, t) < |v.data| && !Meta(sb, Addr(v.inodes[inum], v.data, t))
  }

  /** File inum is complete and holds the bytes c. */
  ghost predicate FileIs(sb: Super, v: Parts, inum: nat, c: seq<byte>) {
    && inum < |v.inodes| && Placed(sb, v, inum) && Mapped(v.inodes[inum], v.data, v.inodes[inum].size)
    && Contents(v.inodes[inum], v.data) == c
  }

  lemma FileIsNow(sb: Super, v: Parts, own: map<nat, (nat, nat)>, inum: nat, d: Inode)
    requires inum < |v.inodes| && v.inodes[inum] == d && Mapped(d, v.data, d.size)
             && Owned(sb, v.inodes, v.bits, v.data, own)
    ensures FileIs(sb, v, inum, Contents(d, v.data))
  {
    hide Owned, Addr, Bytes;
    forall t: nat | t < NSLOT && Addr(v.inodes[inum], v.data, t) != 0
      ensures Addr(v.inodes[inum], v.data, t) < |v.data| && !Meta(sb, Addr(v.inodes[inum], v.data, t))
    {
      SlotInRange(sb, v.inodes, v.bits, v.data, own, inum, t);
    }
  }

  /** A file's bytes are determined by its inode and the data area. */
  lemma SameFile(sb: Super, v: Parts, w: Parts, inum: nat, c: seq<byte>)
    requires FileIs(sb, v, inum, c) && w.inodes == v.inodes && |w.data| == |v.data| == sb.size
    requires forall b: nat :: b < sb.size && !Meta(sb, b) ==> w.data[b] == v.data[b]
    ensures FileIs(sb, w, inum, c)
  {
    var d := v.inodes[inum];
    assert Addr(d, v.data, NDIRECT) == d.addrs[NDIRECT];
    forall t: nat | t < NSLOT ensures Addr(d, w.data, t) == Addr(d, v.data, t) {
    }
    hide Addr;
    forall k | 0 <= k < d.size ensures FileByte(d, w.data, k) == FileByte(d, v.data, k) {
      var bn := k / BSIZE;
      assert bn * BSIZE < d.size;
      assert Addr(d, v.data, SlotOf(bn)) != 0;
    }
    assert Contents(d, w.data) == Contents(d, v.data);
  }

  /** A write leaves every inode in range of its fields. */
  lemma SizedStays(sb: Super, v: Parts, w: Parts, own: map<nat, (nat, nat)>, inum: nat)
    requires Sized(sb, v) && inum < |v.inodes| && Owned(sb, w.inodes, w.bits, w.data, own)
    requires |w.inodes| == |v.inodes| && forall j :: 0 <= j < |v.inodes| && j != inum ==> w.inodes[j] == v.inodes[j]
    requires w.inodes[inum] == v.inodes[inum].(size := w.inodes[inum].size, addrs := w.inodes[inum].addrs)
    requires w.inodes[inum].size <= MAXFILE * BSIZE
    ensures Sized(sb, w)
  {
    OwnedSizes(sb, w.inodes, w.bits, w.data, own);
    var d := w.inodes[inum];
    forall k: nat | k < 13 ensures d.addrs[k] < UINT_LIMIT {
      assert Addr(d, w.data, k) == d.addrs[k];
      if d.addrs[k] != 0 {
        SlotInRange(sb, w.inodes, w.bits, w.data, own, inum, k);
      }
    }
    hide Owned;
    assert InodeFits(v.inodes[inum]);
  }

  lemma SizedParts(sb: Super, v: Parts, w: Parts, logged: set<nat>)
    requires Covered(sb, v, {}, w, logged) && w.inodes == v.inodes
    ensures Sized(sb, v) ==> Sized(sb, w)
  {
  }

  /** One transaction, from v to w, or the beginning of one: it logs every sector it changes, few of them and none
      of the log's, and its log_write calls end up with the bytes those sectors have in w. */
  ghost predicate Logs(sb: Super, inum: nat, v: Parts, w: Parts, tx: Transaction, logged: set<nat>) {
    Covered(sb, v, {}, w, logged) && Small(sb, inum, logged) && (inum < sb.ninodes ==> HandedOver(sb, w, tx, logged))
  }

  /** And all fields stay in range. */
  ghost predicate StepOk(sb: Super, inum: nat, v: Parts, w: Parts, tx: Transaction, logged: set<nat>) {
    Logs(sb, inum, v, w, tx, logged) && (Sized(sb, v) ==> Sized(sb, w))
  }

  /** Consecutive states, each reached from the one before by such a transaction. */
  ghost predicate Steps(sb: Super, inum: nat, states: seq<Parts>, txs: seq<Transaction>, logs: seq<set<nat>>) {
    && |states| == |logs| + 1 && |txs| == |logs|
    && forall k :: 0 <= k < |logs| ==> StepOk(sb, inum, states[k], states[k + 1], txs[k], logs[k])
  }

  lemma StepsMore(sb: Super, inum: nat, states: seq<Parts>, txs: seq<Transaction>, logs: seq<set<nat>>,
                  v: Parts, tx: Transaction, logged: set<nat>)
    requires Steps(sb, inum, states, txs, logs) && StepOk(sb, inum, states[|logs|], v, tx, logged)
    ensures Steps(sb, inum, states + [v], txs + [tx], logs + [logged])
  {
    hide StepOk;
  }

  /** After k chunks the file holds the first k chunks of what was written, up to byte i. */
  ghost predicate Prefixes(sb: Super, states: seq<Parts>, inum: nat, c: seq<byte>, off: nat, addr: seq<byte>, i: nat) {
    && off <= |c| && i <= |addr|
    && forall k :: 0 <= k < |states| ==> FileIs(sb, states[k], inum, Splice(c, off, addr[..Min(k * CHUNK, i)]))
  }

  lemma PrefixesMore(sb: Super, states: seq<Parts>, inum: nat, c: seq<byte>, off: nat, addr: seq<byte>, i: nat, i': nat,
                     v: Parts)
    requires Prefixes(sb, states, inum, c, off, addr, i) && |states| > 0 && i <= i' <= |addr|
    requires (|states| - 1) * CHUNK <= i && i' <= |states| * CHUNK
    requires FileIs(sb, v, inum, Splice(c, off, addr[..i']))
    ensures Prefixes(sb, states + [v], inum, c, off, addr, i')
  {
    hide FileIs, Splice;
    forall k | 0 <= k < |states| + 1
      ensures FileIs(sb, (states + [v])[k], inum, Splice(c, off, addr[..Min(k * CHUNK, i')]))
    {
      if k < |states| {
        assert Min(k * CHUNK, i) == Min(k * CHUNK, i') == k * CHUNK;
      } else {
        assert Min(k * CHUNK, i') == i';
      }
    }
  }

  lemma PrefixesLonger(sb: Super, states: seq<Parts>, inum: nat, c: seq<byte>, off: nat, addr: seq<byte>, i: nat,
                       all: nat)
    requires Prefixes(sb, states, inum, c, off, addr, i) && (|states| - 1) * CHUNK <= i <= all <= |addr|
    ensures Prefixes(sb, states, inum, c, off, addr, all)
  {
    hide FileIs, Splice;
    forall k | 0 <= k < |states| ensures FileIs(sb, states[k], inum, Splice(c, off, addr[..Min(k * CHUNK, all)])) {
      assert k * CHUNK <= (|states| - 1) * CHUNK;
      assert Min(k * CHUNK, all) == Min(k * CHUNK, i) == k * CHUNK;
    }
  }

  ghost function FileText(v: Parts, j: nat): seq<byte>
    requires j < |v.inodes|
  {
    if v.inodes[j].size <= MAXFILE * BSIZE then Contents(v.inodes[j], v.data) else []
  }

  /** Every file but inum holds in v the bytes it held in v0. */
  ghost predicate OthersHold(sb: Super, v0: Parts, v: Parts, inum: nat) {
    |v.inodes| == |v0.inodes| && forall j: nat :: j < |v0.inodes| && j != inum ==> FileIs(sb, v, j, FileText(v0, j))
  }

  /** And in every one of the states. */
  ghost predicate Bystanders(sb: Super, states: seq<Parts>, inum: nat) {
    |states| > 0 && forall k :: 0 <= k < |states| ==> OthersHold(sb, states[0], states[k], inum)
  }

  lemma BystandersMore(sb: Super, states: seq<Parts>, inum: nat, v: Parts)
    requires Bystanders(sb, states, inum) && OthersHold(sb, states[0], v, inum)
    ensures Bystanders(sb, states + [v], inum)
  {
    hide OthersHold;
  }

  // ---------- the blocks a write takes ----------

  /** Writing n bytes at offset off has filled the blocks they need, out of the free ones. */
  ghost predicate Paid(d0: Inode, data0: seq<Block>, bits0: seq<bool>, d: Inode, data: seq<Block>, bits: seq<bool>,
                       off: nat, n: nat) {
    && off + n <= MAXFILE * BSIZE && Fills(d0, data0, d, data, off / BSIZE, EndBlock(off, n))
    && FreeCount(bits0) == FreeCount(bits) + MissingFor(d0, data0, off, n)
  }

  lemma PaidNone(d: Inode, data: seq<Block>, bits: seq<bool>, off: nat)
    requires Mapped(d, data, d.size) && off <= d.size
    ensures Paid(d, data, bits, d, data, bits, off, 0)
  {
    FillsNone(d, data, off / BSIZE, EndBlock(off, 0), d.size);
    assert Mapped(d, data, off + 0);
    MissingNone(d, data, off, 0);
  }

  /** One more part of the write. */
  lemma PaidMore(d0: Inode, data0: seq<Block>, bits0: seq<bool>, d1: Inode, data1: seq<Block>, bits1: seq<bool>,
                 d2: Inode, data2: seq<Block>, bits2: seq<bool>, off: nat, i: nat, pos: nat, n: nat, j: nat)
    requires Paid(d0, data0, bits0, d1, data1, bits1, off, i) && Paid(d1, data1, bits1, d2, data2, bits2, pos, n)
    requires pos == off + i && j == i + n
    ensures Paid(d0, data0, bits0, d2, data2, bits2, off, j)
  {
    hide Fills, Missing, FreeCount;
    BlockRange(off, i);
    BlockRange(pos, n);
    FillsMore(d0, data0, d1, data1, d2, data2, off / BSIZE, EndBlock(off, i), pos / BSIZE, EndBlock(pos, n));
    MissingSplit(d0, data0, d1, data1, off / BSIZE, EndBlock(off, i), pos / BSIZE, EndBlock(pos, n));
  }

  /** A part that cannot be paid for: nor can the whole. */
  lemma Unpaid(d0: Inode, data0: seq<Block>, bits0: seq<bool>, d1: Inode, data1: seq<Block>, bits1: seq<bool>,
               off: nat, i: nat, pos: nat, n: nat, all: nat)
    requires Paid(d0, data0, bits0, d1, data1, bits1, off, i) && pos == off + i && i + n <= all
             && off + all <= MAXFILE * BSIZE
    requires MissingFor(d1, data1, pos, n) > FreeCount(bits1)
    ensures MissingFor(d0, data0, off, all) > FreeCount(bits0)
  {
    hide Fills, Missing, FreeCount;
    BlockRange(off, i);
    BlockRange(pos, n);
    BlockRange(off, all);
    MissingSplit(d0, data0, d1, data1, off / BSIZE, EndBlock(off, i), pos / BSIZE, EndBlock(pos, n));
    MissingGrows(d0, data0, off / BSIZE, EndBlock(pos, n), EndBlock(off, all));
  }

  /** The next chunk, when it fits, is among the bytes taken. */
  lemma TakenNext(off: nat, n: nat, i: nat, next: nat)
    requires i < n && next == i + Min(n - i, CHUNK) && off + next <= MAXFILE * BSIZE
    ensures next <= Taken(off, n, i)
  {
  }

  // ---------- filewrite ----------

  class OpenFile {
    const fs: FileSystem
    const ip: InodeRef
    const writable: bool
    var off: uint

    constructor (fs: FileSystem, ip: InodeRef, writable: bool, off: uint)
      ensures this.fs == fs && this.ip == ip && this.writable == writable && this.off == off
    {
      this.fs, this.ip, this.writable, this.off := fs, ip, writable, off;
    }

    /** filewrite on an inode: all chunks together are one splice of the bytes taken; all n bytes
        when they fit. Fails only by the panic "balloc: out of blocks", exactly when fewer blocks are free
        than the bytes taken need. `txs` are the log_write calls of its transactions, `states` the states
        of the disk between them, `logs` their sectors. */
    method Filewrite(addr: seq<byte>)
      returns (r: int, ok: bool, txs: seq<Transaction>, ghost states: seq<Parts>, ghost logs: seq<set<nat>>)
      requires fs.Valid(ip) && fs.Synced(ip) && |addr| < UINT_LIMIT
      modifies fs, ip`d, this
      ensures ok && !writable ==> r == -1 && off == old(off)
      ensures ok ==> fs.Valid(ip) && fs.Synced(ip) && fs.OthersKeep(ip, old(fs.inodes), old(fs.data))
      ensures ok && writable && old(off) <= old(ip.d.size) ==>
                && off == old(off) + Taken(old(off), |addr|, 0)
                && Contents(ip.d, fs.data)
                   == Splice(old(Contents(ip.d, fs.data)), old(off), addr[..Taken(old(off), |addr|, 0)])
                && r == (if old(off) + |addr| <= MAXFILE * BSIZE || addr == [] then |addr| else -1)
      ensures ok && (!writable || old(off) > old(ip.d.size)) ==>
                off == old(off) && Contents(ip.d, fs.data) == old(Contents(ip.d, fs.data))
      ensures ok && writable && old(off) > old(ip.d.size) ==> r == (if addr == [] then 0 else -1)
      // one transaction per chunk: it hands the log what it changes, no more than 7 sectors, none of the log's
      ensures Steps(fs.sb, ip.inum, states, txs, logs) && states[0] == old(fs.Disk())
              && (ok ==> states[|logs|] == fs.Disk())
      ensures Bystanders(fs.sb, states, ip.inum)
      // between them the file holds the chunks written so far
      ensures writable && old(off) <= old(ip.d.size) ==>
                Prefixes(fs.sb, states, ip.inum, old(Contents(ip.d, fs.data)), old(off), addr,
                         Taken(old(off), |addr|, 0))
      // the panic, from the free blocks
      ensures ok <==> !writable || old(off) > old(ip.d.size)
                      || MissingFor(old(ip.d), old(fs.data), old(off), Taken(old(off), |addr|, 0))
                        <= FreeCount(old(fs.bits))
      // a panic comes inside the next transaction, which is not committed
      ensures !ok ==> StepOk(fs.sb, ip.inum, states[|logs|], fs.Disk(), fs.calls, fs.logged)
    {
      hide Owned, Splice, BitmapSectors, DataSectors, IndirectSectors, Bytes, Covered, FileIs, Small, Taken, StepOk,
           OthersHold, Paid, MissingFor, FreeCount;
      states, txs, logs := [fs.Disk()], [], [];
      fs.Unchanged(ip);
      Beside(fs.Disk());
      if !writable {
        return -1, true, txs, states, logs;
      }
      ghost var c, off0, tab0, data0 := Contents(ip.d, fs.data), off, fs.inodes, fs.data;
      Starts(addr, c);
      var i, done := 0, false;
      ok := true;
      while i < |addr| && !done
        invariant ok && Writing(addr, i, done, c, off0, tab0, data0, states, txs, logs) && states[0] == old(fs.Disk())
        decreases |addr| - i, !done
      {
        i, done, ok, txs, states, logs := NextChunk(addr, i, c, off0, tab0, data0, states, txs, logs);
        if !ok {
          r := -1;
          return;
        }
      }
      Finishes(addr, i, done, c, off0, tab0, data0, states, txs, logs);
      r := if i == |addr| then |addr| else -1;
    }

    /** Where filewrite stands before byte i. */
    ghost predicate Writing(addr: seq<byte>, i: nat, done: bool, c: seq<byte>, off0: nat, tab0: seq<Inode>,
                            data0: seq<Block>, states: seq<Parts>, txs: seq<Transaction>, logs: seq<set<nat>>)
      reads this, fs, ip
    {
      && i <= |addr| && fs.Valid(ip) && fs.Synced(ip) && fs.OthersKeep(ip, tab0, data0)
      && (off0 > |c| ==> i == 0 && off == off0 && Contents(ip.d, fs.data) == c)
      && (off0 <= |c| ==>
            && off == off0 + i && off <= ip.d.size
            && Taken(off0, |addr|, 0) == Taken(off0, |addr|, i)
            && Contents(ip.d, fs.data) == Splice(c, off0, addr[..i])
            && Prefixes(fs.sb, states, ip.inum, c, off0, addr, i))
      && ip.inum < |tab0| && tab0[ip.inum].size == |c| && |states| > 0
      && (off0 <= |c| ==> Paid(tab0[ip.inum], data0, states[0].bits, ip.d, fs.data, fs.bits, off0, i))
      && (done ==> i < |addr| && (off0 > |c| || Taken(off0, |addr|, i) == i))
      && (!done ==> i == Min(|logs| * CHUNK, |addr|))
      && Steps(fs.sb, ip.inum, states, txs, logs) && states[|logs|] == fs.Disk()
      && Bystanders(fs.sb, states, ip.inum) && states[0].inodes == tab0 && states[0].data == data0
    }

    lemma Starts(addr: seq<byte>, c: seq<byte>)
      requires fs.Valid(ip) && fs.Synced(ip) && c == Contents(ip.d, fs.data) && fs.OthersKeep(ip, fs.inodes, fs.data)
      ensures Writing(addr, 0, false, c, off, fs.inodes, fs.data, [fs.Disk()], [], [])
    {
      hide Owned, Splice, Bytes, Covered, Small, Taken, FileIs, OthersHold, Paid;
      NowHolds();
      Beside(fs.Disk());
      assert addr[..0] == [];
      if off <= |c| {
        SpliceNone(c, off);
        PaidNone(ip.d, fs.data, fs.bits, off);
      }
    }

    lemma NowHolds()
      requires fs.Valid(ip) && fs.Synced(ip)
      ensures FileIs(fs.sb, fs.Disk(), ip.inum, Contents(ip.d, fs.data))
    {
      hide Owned, FileIs, Bytes;
      assert fs.Table(ip) == fs.inodes;
      FileIsNow(fs.sb, fs.Disk(), fs.own, ip.inum, ip.d);
    }

    lemma Beside(v0: Parts)
      requires fs.Valid(ip) && fs.Synced(ip) && fs.OthersKeep(ip, v0.inodes, v0.data)
      ensures OthersHold(fs.sb, v0, fs.Disk(), ip.inum)
    {
      hide Owned, FileIs, Bytes;
      assert fs.Table(ip) == fs.inodes;
      forall j: nat | j < |v0.inodes| && j != ip.inum ensures FileIs(fs.sb, fs.Disk(), j, FileText(v0, j)) {
        FileIsNow(fs.sb, fs.Disk(), fs.own, j, fs.inodes[j]);
      }
    }

    /** The loop has ended: all bytes that can be taken have been. */
    lemma Finishes(addr: seq<byte>, i: nat, done: bool, c: seq<byte>, off0: nat, tab0: seq<Inode>, data0: seq<Block>,
                   states: seq<Parts>, txs: seq<Transaction>, logs: seq<set<nat>>)
      requires Writing(addr, i, done, c, off0, tab0, data0, states, txs, logs) && (i == |addr| || done)
               && |c| <= MAXFILE * BSIZE
      ensures off0 <= |c| ==> i == Taken(off0, |addr|, 0)
                              && (i == |addr| <==> off0 + |addr| <= MAXFILE * BSIZE || addr == [])
      ensures off0 > |c| ==> (i == |addr| <==> addr == [])
      ensures ip.inum < |tab0| && |states| > 0
      ensures off0 <= |c| ==>
              MissingFor(tab0[ip.inum], data0, off0, Taken(off0, |addr|, 0)) <= FreeCount(states[0].bits)
    {
      hide Owned, Splice, Bytes, Covered, Small, Steps, Prefixes, Fills, MissingFor, FreeCount;
      if off0 <= |c| {
        TakenWhole(off0, |addr|, 0);
      }
    }

    /** One round of the loop. */
    method NextChunk(addr: seq<byte>, i: nat, ghost c: seq<byte>, ghost off0: nat, ghost tab0: seq<Inode>,
                     ghost data0: seq<Block>, ghost states: seq<Parts>, txs: seq<Transaction>,
                     ghost logs: seq<set<nat>>)
      returns (next: nat, done: bool, ok: bool, txs': seq<Transaction>, ghost states': seq<Parts>,
               ghost logs': seq<set<nat>>)
      requires Writing(addr, i, false, c, off0, tab0, data0, states, txs, logs) && i < |addr| && |addr| < UINT_LIMIT
      modifies fs, ip`d, this
      ensures ok ==> Writing(addr, next, done, c, off0, tab0, data0, states', txs', logs') && states'[0] == states[0]
      ensures ok ==> i < next || (i == next && done)
      ensures ok ==> exists tx, logged :: txs' == txs + [tx] && logs' == logs + [logged]
                                          && states' == states + [fs.Disk()]
      ensures !ok ==> txs' == txs && states' == states && logs' == logs
      ensures !ok ==> Prefixes(fs.sb, states, ip.inum, c, off0, addr, Taken(off0, |addr|, 0))
      ensures !ok ==> StepOk(fs.sb, ip.inum, states[|logs|], fs.Disk(), fs.calls, fs.logged)
      ensures !ok ==> off0 <= |c|
                      && MissingFor(tab0[ip.inum], data0, off0, Taken(off0, |addr|, 0)) > FreeCount(states[0].bits)
    {
      hide Owned, Splice, BitmapSectors, DataSectors, IndirectSectors, Bytes, Covered, FileIs, Small, StepOk, Prefixes,
           OthersHold, Paid, MissingFor, FreeCount;
      ghost var d1, data1, bits1 := ip.d, fs.data, fs.bits;
      states', txs', logs', done := states, txs, logs, false;
      next := i + Min(|addr| - i, CHUNK);
      var w, tx;
      ghost var logged;
      w, ok, tx, logged := WriteChunk(addr[i..next]);
      if !ok {
        TakenNext(off0, |addr|, i, next);
        PrefixesLonger(fs.sb, states, ip.inum, c, off0, addr, i, Taken(off0, |addr|, 0));
        Unpaid(tab0[ip.inum], data0, states[0].bits, d1, data1, bits1, off0, i, off, next - i, Taken(off0, |addr|, 0));
        return;
      }
      StepsMore(fs.sb, ip.inum, states, txs, logs, fs.Disk(), tx, logged);
      NowHolds();
      Beside(states[0]);
      BystandersMore(fs.sb, states, ip.inum, fs.Disk());
      if w < 0 {
        next, done := i, true;
      } else {
        PaidMore(tab0[ip.inum], data0, states[0].bits, d1, data1, bits1, ip.d, fs.data, fs.bits, off0, i, off0 + i,
                 next - i, next);
        SpliceTwice(c, off0, addr[..i], addr[i..next], off0 + i);
        assert addr[..i] + addr[i..next] == addr[..next];
      }
      if off0 <= |c| {
        PrefixesMore(fs.sb, states, ip.inum, c, off0, addr, i, next, fs.Disk());
      }
      states', txs', logs' := states + [fs.Disk()], txs + [tx], logs + [logged];
    }

    lemma StillSized(v: Parts)
      requires Sized(fs.sb, v) && fs.Valid(ip) && fs.Synced(ip) && ip.inum < |v.inodes|
      requires fs.OthersKeep(ip, v.inodes, v.data) && ip.d == v.inodes[ip.inum].(size := ip.d.size, addrs := ip.d.addrs)
      ensures Sized(fs.sb, fs.Disk())
    {
      hide Owned, Sized, Bytes, Addr;
      assert fs.Table(ip) == fs.inodes;
      SizedStays(fs.sb, v, fs.Disk(), fs.own, ip.inum);
    }

    /** One transaction of filewrite: begin_trans, writei, commit_trans. */
    method WriteChunk(chunk: seq<byte>) returns (w: int, ok: bool, tx: Transaction, ghost logged: set<nat>)
      requires fs.Valid(ip) && fs.Synced(ip) && |chunk| <= CHUNK
      modifies fs, ip`d, this
      ensures ok ==> fs.Valid(ip) && fs.Synced(ip)
      ensures ok ==> fs.OthersKeep(ip, old(fs.inodes), old(fs.data))
      ensures ok && w < 0 <==> old(off) > old(ip.d.size) || old(off) + |chunk| > MAXFILE * BSIZE
      ensures ok && w < 0 ==> off == old(off) && Contents(ip.d, fs.data) == old(Contents(ip.d, fs.data))
                              && ip.d == old(ip.d)
      ensures ok && w >= 0 ==>
                && off == old(off) + |chunk|
                && Contents(ip.d, fs.data) == Splice(old(Contents(ip.d, fs.data)), old(off), chunk)
                && off <= ip.d.size
      ensures StepOk(fs.sb, ip.inum, old(fs.Disk()), fs.Disk(), tx, logged) && tx == fs.calls && logged == fs.logged
      ensures ok && w < 0 ==> fs.data == old(fs.data) && fs.bits == old(fs.bits)
      ensures ok && w >= 0 ==> Paid(old(ip.d), old(fs.data), old(fs.bits), ip.d, fs.data, fs.bits, old(off), |chunk|)
      ensures ok <==> old(off) > old(ip.d.size) || old(off) + |chunk| > MAXFILE * BSIZE
                      || MissingFor(old(ip.d), old(fs.data), old(off), |chunk|) <= FreeCount(old(fs.bits))
      ensures !ok ==> off == old(off)
    {
      hide Owned, Splice, BitmapSectors, DataSectors, IndirectSectors, Bytes, Covered, Small, HandedOver, Sized, Fills,
           Missing, FreeCount, OtherSlots;
      fs.Unchanged(ip);
      ghost var v0 := fs.Disk();
      fs.calls, fs.logged, tx, logged := [], {}, [], {};
      HandedNone(fs.sb, fs.Disk());
      SmallNone(fs.sb, ip.inum);
      ghost var c := Contents(ip.d, fs.data);
      w, ok := fs.Writei(ip, chunk, off);
      tx, logged := fs.calls, fs.logged;
      if ok && w < 0 {
        return;
      }
      ghost var hi := EndBlock(off, |chunk|);
      ChunkIsSmall(fs.sb, fs.Table(ip), fs.bits, fs.data, fs.own, ip.inum, off, |chunk|, hi, fs.logged);
      if !ok {
        SizedParts(fs.sb, v0, fs.Disk(), logged);
        return;
      }
      if Sized(fs.sb, v0) {
        StillSized(v0);
      }
      SpliceAt(c, off, chunk, 0);
      off := off + w;
    }
  }
}
