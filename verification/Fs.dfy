/** Block allocator, inode block map and inode contents of xv6/fs.c, run inside a transaction: the
    three parts of the disk are updated in place, `calls` collects the log_write calls, sector and
    bytes, and `logged` their sectors. */
module Fs {
  import opened Blocks
  import opened FsState
  import opened FsSpace
  import opened FsImage
  import opened LogSpec
  import opened Prelude

  /** struct inode: the in-memory copy of inode `inum`. */
  class InodeRef {
    const inum: nat
    var d: Inode

    constructor (inum: nat, d: Inode)
      ensures this.inum == inum && this.d == d
    {
      this.inum, this.d := inum, d;
    }
  }

  /** The sectors of the bitmap. */
  ghost function BitmapSectors(sb: Super): set<nat> {
    set b: nat | b < sb.size :: BBlock(sb, b)
  }

  ghost function IndirectSectors(d: Inode): set<nat> {
    if d.addrs[NDIRECT] == 0 then {} else {d.addrs[NDIRECT]}
  }

  /** The sectors that hold the file blocks lo, ..., hi - 1. */
  ghost function DataSectors(d: Inode, data: seq<Block>, lo: nat, hi: nat): set<nat>
    requires hi <= MAXFILE
  {
    set b: nat | lo <= b < hi :: Addr(d, data, SlotOf(b))
  }

  /** What has been handed to log_write so far: for every logged sector, last of all, its bytes in
      the present state; for other sectors nothing. */
  ghost predicate HandedOver(sb: Super, v: Parts, calls: Transaction, logged: set<nat>) {
    forall s: nat :: LastWrite(calls, s) == if s in logged then Some(Sector(sb, v, s)) else None
  }

  lemma HandedNone(sb: Super, v: Parts)
    ensures HandedOver(sb, v, [], {})
  {
  }

  /** One sector changes and is handed over. */
  lemma HandedMore(sb: Super, v: Parts, calls: Transaction, logged: set<nat>, v': Parts, s: nat, block: Block,
                   calls': Transaction, logged': set<nat>)
    requires HandedOver(sb, v, calls, logged) && Covered(sb, v, {}, v', {s}) && block == Sector(sb, v', s)
    requires calls' == calls + [Write(s, block)] && logged' == logged + {s}
    ensures HandedOver(sb, v', calls', logged')
  {
    assert calls'[..|calls' | - 1] == calls;
    forall t: nat ensures LastWrite(calls', t) == if t in logged' then Some(Sector(sb, v', t)) else None {
      if t != s {
        Unlogged(sb, v, v', {s}, t);
        hide Sector;
      }
    }
  }

  /** A bit of the bitmap changes: the block that balloc and bfree hand over. */
  lemma HandedBit(sb: Super, v: Parts, calls: Transaction, logged: set<nat>, b: nat, on: bool, v': Parts,
                  calls': Transaction, logged': set<nat>)
    requires HandedOver(sb, v, calls, logged) && b < |v.bits| == sb.size && v' == v.(bits := v.bits[b := on])
    requires calls' == calls + [Write(BBlock(sb, b), SetBit(BitmapBlock(v.bits, b / BPB), b % BPB, on))]
    requires logged' == logged + {BBlock(sb, b)}
    ensures HandedOver(sb, v', calls', logged')
  {
    hide SetBit, BitmapBlock, InodeBlock, HandedOver;
    SetBitIs(v.bits, b / BPB, b % BPB, on, b);
    assert b / BPB <= sb.size / BPB;
    HandedMore(sb, v, calls, logged, v', BBlock(sb, b), SetBit(BitmapBlock(v.bits, b / BPB), b % BPB, on), calls',
               logged');
  }

  /** A data block changes. */
  lemma HandedBlock(sb: Super, v: Parts, calls: Transaction, logged: set<nat>, b: nat, block: Block, v': Parts,
                    calls': Transaction, logged': set<nat>)
    requires HandedOver(sb, v, calls, logged) && DataStart(sb) <= b < |v.data| && v' == v.(data := v.data[b := block])
    requires calls' == calls + [Write(b, block)] && logged' == logged + {b}
    ensures HandedOver(sb, v', calls', logged')
  {
    hide BitmapBlock, InodeBlock, HandedOver;
    HandedMore(sb, v, calls, logged, v', b, block, calls', logged');
  }

  /** A dinode changes: the block that iupdate hands over. */
  lemma HandedInode(sb: Super, v: Parts, calls: Transaction, logged: set<nat>, i: nat, d: Inode, v': Parts,
                    calls': Transaction, logged': set<nat>)
    requires HandedOver(sb, v, calls, logged) && i < |v.inodes| && i < sb.ninodes
             && v' == v.(inodes := v.inodes[i := d])
    requires calls' == calls + [Write(IBlock(i), PutInode(InodeBlock(v.inodes, i / IPB), i % IPB, d, 16))]
    requires logged' == logged + {IBlock(i)}
    ensures HandedOver(sb, v', calls', logged')
  {
    hide BitmapBlock, InodeBlock, PutInode, HandedOver;
    PutInodeIs(v.inodes, i / IPB, i % IPB, i, d);
    assert i / IPB <= sb.ninodes / IPB;
    HandedMore(sb, v, calls, logged, v', IBlock(i), PutInode(InodeBlock(v.inodes, i / IPB), i % IPB, d, 16), calls',
               logged');
  }

  class FileSystem {
    const sb: Super
    var bits: seq<bool>
    var inodes: seq<Inode>
    var data: seq<Block>
    /** Which inode and slot each block in use belongs to. */
    ghost var own: map<nat, (nat, nat)>
    /** The log_write calls of the transaction so far, and their sectors. */
    var calls: Transaction
    ghost var logged: set<nat>

    ghost predicate Handed()
      reads this
    {
      HandedOver(sb, Disk(), calls, logged)
    }

    ghost function Disk(): Parts
      reads this
    {
      Parts(bits, inodes, data)
    }

    /** The inode table with the in-memory copy of ip in place of its disk copy. */
    ghost function Table(ip: InodeRef): seq<Inode>
      requires ip.inum < |inodes|
      reads this, ip
    {
      inodes[ip.inum := ip.d]
    }

    /** Block ownership, counting ip by its in-memory copy. */
    ghost predicate OwnedWith(ip: InodeRef)
      reads this, ip
    {
      ip.inum < |inodes| && Owned(sb, Table(ip), bits, data, own)
    }

    /** No block is free. */
    ghost predicate Full()
      reads this
    {
      |bits| == sb.size && forall c :: 0 <= c < sb.size ==> bits[c]
    }

    /** Every block below the size of every file is mapped. */
    ghost predicate AllMapped(tab: seq<Inode>)
      reads this
    {
      forall j :: 0 <= j < |tab| ==> Mapped(tab[j], data, tab[j].size)
    }

    constructor (sb: Super, bits: seq<bool>, inodes: seq<Inode>, data: seq<Block>, ghost own: map<nat, (nat, nat)>)
      ensures this.sb == sb && this.bits == bits && this.inodes == inodes && this.data == data && this.own == own
      ensures logged == {} && calls == [] && Handed()
    {
      this.sb, this.bits, this.inodes, this.data, this.own, calls, logged := sb, bits, inodes, data, own, [], {};
    }

    /** balloc: mark the first free block in use and zero it. Fails only by the panic "balloc: out
        of blocks". */
    method Balloc() returns (b: nat, ok: bool)
      requires |bits| == sb.size && |data| == sb.size
      modifies this`bits, this`data, this`calls, this`logged
      ensures ok ==>
                && b < sb.size && !old(bits)[b] && (forall c :: 0 <= c < b ==> old(bits)[c])
                && bits == old(bits)[b := true] && data == old(data)[b := ZeroBlock()]
                && logged == old(logged) + {BBlock(sb, b), b}
      ensures !ok ==>
                && Full()
                && bits == old(bits) && data == old(data) && logged == old(logged)
      ensures Covered(sb, old(Disk()), old(logged), Disk(), logged)
      ensures old(Handed()) && (ok ==> b >= DataStart(sb)) ==> Handed()
      ensures !ok ==> calls == old(calls)
      ensures ok <==> FreeCount(old(bits)) > 0
      ensures ok ==> FreeCount(old(bits)) == FreeCount(bits) + 1
    {
      hide HandedOver, SetBit, BitmapBlock, PutInode, InodeBlock, FreeCount;
      FreeNone(bits);
      var base := 0;
      while base < sb.size
        invariant 0 <= base && base % BPB == 0
        invariant forall c :: 0 <= c < base && c < sb.size ==> bits[c]
        invariant bits == old(bits) && data == old(data) && logged == old(logged) && calls == old(calls)
      {
        var bi := 0;
        while bi < BPB && base + bi < sb.size
          invariant 0 <= bi <= BPB && base + bi <= sb.size
          invariant forall c :: 0 <= c < base + bi ==> bits[c]
          invariant bits == old(bits) && data == old(data) && logged == old(logged) && calls == old(calls)
        {
          if !bits[base + bi] {
            b, ok := base + bi, true;
            FreeTaken(bits, b);
            Take(b);
            return;
          }
          bi := bi + 1;
        }
        base := base + BPB;
      }
      b, ok := 0, false;
    }

    /** The found block: its bit is set and logged, then bzero clears and logs the block. */
    method Take(b: nat)
      requires |bits| == sb.size && |data| == sb.size && b < sb.size
      modifies this`bits, this`data, this`calls, this`logged
      ensures bits == old(bits)[b := true] && data == old(data)[b := ZeroBlock()]
      ensures logged == old(logged) + {BBlock(sb, b), b}
      ensures Covered(sb, old(Disk()), old(logged), Disk(), logged)
      ensures old(Handed()) && b >= DataStart(sb) ==> Handed()
    {
      hide HandedOver, SetBit, BitmapBlock, Sector, ZeroBlock;
      ghost var v, c, l := Disk(), calls, logged;
      calls := calls + [Write(BBlock(sb, b), SetBit(BitmapBlock(bits, b / BPB), b % BPB, true))];
      bits := bits[b := true];
      logged := logged + {BBlock(sb, b)};
      ghost var v1, c1, l1 := Disk(), calls, logged;
      if HandedOver(sb, v, c, l) {
        HandedBit(sb, v, c, l, b, true, v1, c1, l1);
      }
      PutBlock(b, ZeroBlock());
    }

    /** A data block gets new contents and is logged. */
    method PutBlock(b: nat, block: Block)
      requires b < |data|
      modifies this`data, this`calls, this`logged
      ensures data == old(data)[b := block] && logged == old(logged) + {b}
      ensures Covered(sb, old(Disk()), old(logged), Disk(), logged)
      ensures old(Handed()) && b >= DataStart(sb) ==> Handed()
    {
      hide HandedOver, Sector;
      ghost var v, c, l := Disk(), calls, logged;
      data := data[b := block];
      calls := calls + [Write(b, block)];
      logged := logged + {b};
      if HandedOver(sb, v, c, l) && b >= DataStart(sb) {
        HandedBlock(sb, v, c, l, b, block, Disk(), calls, logged);
      }
    }

    /** bfree: clear the bit; fails by the panic "freeing free block". */
    method Bfree(b: nat) returns (ok: bool)
      requires |bits| == sb.size && b < sb.size
      modifies this`bits, this`calls, this`logged
      ensures ok <==> old(bits)[b]
      ensures bits == old(bits)[b := false]
      ensures logged == if ok then old(logged) + {BBlock(sb, b)} else old(logged)
      ensures Covered(sb, old(Disk()), old(logged), Disk(), logged) && (old(Handed()) ==> Handed())
    {
      hide HandedOver, SetBit, BitmapBlock, Sector;
      ok := bits[b];
      if ok {
        ghost var v, c, l := Disk(), calls, logged;
        calls := calls + [Write(BBlock(sb, b), SetBit(BitmapBlock(bits, b / BPB), b % BPB, false))];
        bits := bits[b := false];
        logged := logged + {BBlock(sb, b)};
        if HandedOver(sb, v, c, l) {
          HandedBit(sb, v, c, l, b, false, Disk(), calls, logged);
        }
      }
    }

    /** iupdate: copy the in-memory inode to disk. */
    method Iupdate(ip: InodeRef)
      requires ip.inum < |inodes|
      modifies this`inodes, this`calls, this`logged
      ensures inodes == old(inodes)[ip.inum := ip.d]
      ensures logged == old(logged) + {IBlock(ip.inum)}
      ensures Covered(sb, old(Disk()), old(logged), Disk(), logged)
      ensures old(Handed()) && ip.inum < sb.ninodes ==> Handed()
    {
      hide HandedOver, PutInode, InodeBlock, Sector;
      ghost var v, c, l := Disk(), calls, logged;
      calls := calls + [Write(IBlock(ip.inum), PutInode(InodeBlock(inodes, ip.inum / IPB), ip.inum % IPB, ip.d, 16))];
      inodes := inodes[ip.inum := ip.d];
      logged := logged + {IBlock(ip.inum)};
      if HandedOver(sb, v, c, l) && ip.inum < sb.ninodes {
        HandedInode(sb, v, c, l, ip.inum, ip.d, Disk(), calls, logged);
      }
    }

    /** A slot of the inode itself: a direct block or the indirect block, allocated if missing. */
    method MapSlot(ip: InodeRef, s: nat) returns (a: nat, ok: bool)
      requires OwnedWith(ip) && s <= NDIRECT
      modifies this`bits, this`data, this`own, this`calls, this`logged, ip`d
      ensures OwnedWith(ip) && (ok ==> a == ip.d.addrs[s] != 0)
      ensures Grown(old(Table(ip)), old(data), old(own), Table(ip), data, own, ip.inum)
      ensures OneSlot(old(ip.d), old(data), ip.d, data, s)
      ensures ok ==> ip.d == old(ip.d).(addrs := old(ip.d.addrs)[s := a])
      ensures !ok || old(ip.d.addrs)[s] != 0 ==>
                && bits == old(bits) && data == old(data) && ip.d == old(ip.d) && own == old(own)
                && logged == old(logged) && calls == old(calls)
      ensures ok && old(ip.d.addrs)[s] == 0 ==> a < sb.size && data == old(data)[a := ZeroBlock()]
      ensures ok ==> a < sb.size && logged <= old(logged) + {a} + BitmapSectors(sb)
      ensures Covered(sb, old(Disk()), old(logged), Disk(), logged)
      ensures old(Handed()) ==> Handed()
      // the panic, from the free blocks
      ensures ok <==> old(ip.d.addrs)[s] != 0 || FreeCount(old(bits)) > 0
      ensures ok ==> FreeCount(old(bits)) == FreeCount(bits) + if old(ip.d.addrs)[s] == 0 then 1 else 0
      ensures !ok ==> Full()
    {
      hide Owned, Grown, Covered, HandedOver, FreeCount;
      CoveredNone(sb, Disk(), logged);
      ok := true;
      a := ip.d.addrs[s];
      ghost var tab, bits0, data0, own0 := Table(ip), bits, data, own;
      assert Addr(tab[ip.inum], data, s) == a;
      GrownNot(tab, data, own, ip.inum);
      if a == 0 {
        OwnedSizes(sb, tab, bits, data, own);
        a, ok := Balloc();
        if !ok {
          return;
        }
        NotFree(sb, tab, bits0, data0, own0, ip.inum, s, a);
        ip.d := ip.d.(addrs := ip.d.addrs[s := a]);
        own := own[a := (ip.inum, s)];
        GrownDirect(sb, tab, bits0, data0, own0, ip.inum, s, a, Table(ip), data);
      } else {
        SlotInRange(sb, tab, bits, data, own, ip.inum, s);
      }
    }

    /** bmap: the block that holds block bn of the file, allocated if it does not exist. Fails by a
        panic: out of range, or out of blocks, exactly when fewer are free than are missing. */
    method Bmap(ip: InodeRef, bn: nat) returns (a: nat, ok: bool)
      requires OwnedWith(ip)
      modifies this`bits, this`data, this`own, this`calls, this`logged, ip`d
      ensures OwnedWith(ip) && Grown(old(Table(ip)), old(data), old(own), Table(ip), data, own, ip.inum)
      ensures SlotsKept(old(ip.d), old(data), ip.d, data) && ip.d == old(ip.d).(addrs := ip.d.addrs)
      ensures ok ==> bn < MAXFILE && a == Addr(ip.d, data, SlotOf(bn)) != 0 && a < sb.size
      ensures ok ==> Fills(old(ip.d), old(data), ip.d, data, bn, bn + 1)
      // a block that exists is found without touching anything
      ensures bn < MAXFILE && Addr(old(ip.d), old(data), SlotOf(bn)) != 0 ==>
                && ok && ip.d == old(ip.d) && bits == old(bits) && data == old(data) && own == old(own)
                && logged == old(logged) && calls == old(calls)
      ensures ok && Addr(old(ip.d), old(data), SlotOf(bn)) == 0 ==> data[a] == ZeroBlock()
      ensures logged <= old(logged) + (if ok then {a} else {}) + IndirectSectors(ip.d) + BitmapSectors(sb)
      ensures Covered(sb, old(Disk()), old(logged), Disk(), logged)
      ensures old(Handed()) ==> Handed()
      ensures ok <==> bn < MAXFILE && Missing(old(ip.d), old(data), bn, bn + 1) <= FreeCount(old(bits))
      ensures ok ==> FreeCount(old(bits)) == FreeCount(bits) + Missing(old(ip.d), old(data), bn, bn + 1)
      ensures !ok ==> bn >= MAXFILE || Full()
    {
      hide Owned, Grown, Word, ZeroBlock, BitmapSectors, Covered, HandedOver, Missing, FreeCount;
      CoveredNone(sb, Disk(), logged);
      OwnedSizes(sb, Table(ip), bits, data, own);
      if bn < MAXFILE {
        MissingOne(ip.d, data, bn, bn + 1);
      }
      if bn < NDIRECT {
        a, ok := MapSlot(ip, bn);
        if ok {
          FillsOne(old(ip.d), old(data), ip.d, data, bn, bn + 1);
        }
      } else if bn < MAXFILE {
        a, ok := MapIndirect(ip, bn - NDIRECT, SlotOf(bn));
        if ok {
          FillsOne(old(ip.d), old(data), ip.d, data, bn, bn + 1);
        }
      } else {
        GrownNot(Table(ip), data, own, ip.inum);
        a, ok := 0, false;
      }
    }

    /** The second half of bmap: entry n of the indirect block. */
    method MapIndirect(ip: InodeRef, n: nat, ghost s: nat) returns (a: nat, ok: bool)
      requires OwnedWith(ip) && n < NINDIRECT && s == NDIRECT + 1 + n
      modifies this`bits, this`data, this`own, this`calls, this`logged, ip`d
      ensures OwnedWith(ip) && Grown(old(Table(ip)), old(data), old(own), Table(ip), data, own, ip.inum)
      ensures SlotsKept(old(ip.d), old(data), ip.d, data) && ip.d == old(ip.d).(addrs := ip.d.addrs)
      ensures ok ==> a == Addr(ip.d, data, s) != 0 && a < sb.size
      ensures forall t: nat :: t < NSLOT && t != s && t != NDIRECT ==>
              Addr(ip.d, data, t) == Addr(old(ip.d), old(data), t)
      ensures Addr(old(ip.d), old(data), s) != 0 ==>
                && ok && ip.d == old(ip.d) && bits == old(bits) && data == old(data) && own == old(own)
                && logged == old(logged) && calls == old(calls)
      ensures ok && Addr(old(ip.d), old(data), s) == 0 ==> data[a] == ZeroBlock()
      ensures logged <= old(logged) + (if ok then {a} else {}) + IndirectSectors(ip.d) + BitmapSectors(sb)
      ensures Covered(sb, old(Disk()), old(logged), Disk(), logged)
      ensures old(Handed()) ==> Handed()
      // an absent indirect block is one block more
      ensures var need := if Addr(old(ip.d), old(data), s) != 0 then 0 else if old(ip.d).addrs[NDIRECT] == 0 then 2
              else 1;
              (ok <==> need <= FreeCount(old(bits))) && (ok ==> FreeCount(old(bits)) == FreeCount(bits) + need)
      ensures !ok ==> Full()
    {
      hide Owned, Grown, Word, ZeroBlock, BitmapSectors, Covered, HandedOver, FreeCount;
      WordOfZero(n);
      var ind;
      ind, ok := MapSlot(ip, NDIRECT);
      if !ok {
        a := 0;
        return;
      }
      ghost var tab1, data1, own1, disk1, logged1 := Table(ip), data, own, Disk(), logged;
      assert IndirectSectors(ip.d) == {ind};
      a, ok := MapEntry(ip, ind, n, s);
      CoveredTwice(sb, old(Disk()), old(logged), disk1, logged1, Disk(), logged);
      GrownTransitive(old(Table(ip)), old(data), old(own), tab1, data1, own1, Table(ip), data, own, ip.inum);
    }

    method MapEntry(ip: InodeRef, ind: nat, n: nat, ghost s: nat) returns (a: nat, ok: bool)
      requires OwnedWith(ip) && n < NINDIRECT && s == NDIRECT + 1 + n && ind == ip.d.addrs[NDIRECT] != 0
      modifies this`bits, this`data, this`own, this`calls, this`logged
      ensures OwnedWith(ip) && Grown(old(Table(ip)), old(data), old(own), Table(ip), data, own, ip.inum)
      ensures OneSlot(ip.d, old(data), ip.d, data, s)
      ensures ok ==> a == Addr(ip.d, data, s) != 0 && a < sb.size
      ensures !ok || Addr(ip.d, old(data), s) != 0 ==>
                && bits == old(bits) && data == old(data) && own == old(own) && logged == old(logged)
                   && calls == old(calls)
      ensures ok && Addr(ip.d, old(data), s) == 0 ==> data[a] == ZeroBlock()
      ensures logged <= old(logged) + (if ok then {a, ind} else {}) + BitmapSectors(sb)
      ensures Covered(sb, old(Disk()), old(logged), Disk(), logged)
      ensures old(Handed()) ==> Handed()
      ensures ok <==> Addr(ip.d, old(data), s) != 0 || FreeCount(old(bits)) > 0
      ensures ok ==> FreeCount(old(bits)) == FreeCount(bits) + if Addr(ip.d, old(data), s) == 0 then 1 else 0
      ensures !ok ==> Full()
    {
      hide Owned, Grown, Covered, HandedOver, FreeCount;
      CoveredNone(sb, Disk(), logged);
      ghost var tab, bits0, data0, own0 := Table(ip), bits, data, own;
      assert Addr(tab[ip.inum], data, NDIRECT) == ind;
      SlotInRange(sb, tab, bits, data, own, ip.inum, NDIRECT);
      GrownNot(tab, data, own, ip.inum);
      var buf := data[ind];
      a, ok := Word(buf, n), true;
      assert Addr(tab[ip.inum], data, s) == a;
      if a == 0 {
        OwnedSizes(sb, tab, bits, data, own);
        a, ok := Balloc();
        if !ok {
          return;
        }
        NotFree(sb, tab, bits0, data0, own0, ip.inum, s, a);
        buf := PutWord(buf, n, a);
        ghost var disk1, logged1 := Disk(), logged;
        PutBlock(ind, buf);
        CoveredTwice(sb, old(Disk()), old(logged), disk1, logged1, Disk(), logged);
        own := own[a := (ip.inum, s)];
        GrownIndirect(sb, tab, bits0, data0, own0, ip.inum, n, s, a, ind, data);
      } else {
        SlotInRange(sb, tab, bits, data, own, ip.inum, s);
      }
    }

    /** The invariant at the start and the end of every operation on ip. */
    ghost predicate Valid(ip: InodeRef)
      reads this, ip
    {
      OwnedWith(ip) && AllMapped(Table(ip)) && Mapped(ip.d, data, ip.d.size)
    }

    /** The disk copy of ip is up to date. */
    ghost predicate Synced(ip: InodeRef)
      reads this, ip
    {
      ip.inum < |inodes| && inodes[ip.inum] == ip.d
    }

    /** readi of a file or directory: a slice of its contents, which never allocates. -1 when the
        offset is beyond the end or offset + n overflows 32 bits. */
    method Readi(ip: InodeRef, off: uint, n: uint) returns (r: int, dst: seq<byte>)
      requires Valid(ip)
      modifies this`bits, this`data, this`own, this`calls, this`logged, ip`d
      ensures bits == old(bits) && data == old(data) && own == old(own) && logged == old(logged) && calls == old(calls)
              && ip.d == old(ip.d)
      ensures r == -1 <==> off > ip.d.size || off + n >= UINT_LIMIT
      ensures r != -1 ==>
                && r == |dst| == (if off + n > ip.d.size then ip.d.size - off else n)
                && dst == old(Contents(ip.d, data))[off..off + r]
    {
      hide Owned, Grown, Bytes, Addr, Word, BitmapSectors, Fills, SlotsKept, Missing, FreeCount, Covered, HandedOver,
           IndirectSectors;
      ghost var d0, data0, c := ip.d, data, Contents(ip.d, data);
      OwnedSizes(sb, Table(ip), bits, data, own);
      if off > ip.d.size || (off + n) % UINT_LIMIT < off {
        return -1, [];
      }
      var count := if off + n > ip.d.size then ip.d.size - off else n;
      dst := [];
      var pos := off;
      while |dst| < count
        invariant |dst| <= count && pos == off + |dst|
        invariant bits == old(bits) && data == old(data) && own == old(own) && logged == old(logged)
                  && calls == old(calls) && ip.d == old(ip.d)
        invariant dst == c[off..pos]
      {
        var bn := pos / BSIZE;
        assert bn * BSIZE < ip.d.size;
        assert Addr(d0, data0, SlotOf(bn)) != 0;
        var a, ok := Bmap(ip, bn);
        var o, m := pos % BSIZE, Min(count - |dst|, BSIZE - pos % BSIZE);
        ReadStep(d0, data0, pos, m, bn, o);
        dst := dst + data[a][o..o + m];
        var next := pos + m;
        assert c[off..next] == c[off..pos] + c[pos..next];
        pos := next;
      }
      r := count;
    }

    /** Every file but ip's holds the bytes it held. */
    ghost predicate OthersKeep(ip: InodeRef, tab0: seq<Inode>, data0: seq<Block>)
      reads this, ip
    {
      && |tab0| == |inodes|
      && forall j :: 0 <= j < |tab0| && j != ip.inum ==>
           && tab0[j].size <= MAXFILE * BSIZE && inodes[j] == tab0[j]
           && Mapped(tab0[j], data, tab0[j].size) && Contents(tab0[j], data) == Contents(tab0[j], data0)
    }

    /** writei of a file or directory: the bytes are spliced into the contents and every other file
        keeps its own. -1 when the offset is beyond the end or the result would be too long. The
        disk inode is up to date afterwards although it is only written when the file grows. Fails
        only by the panic "balloc: out of blocks", exactly when fewer blocks are free than are missing. */
    method Writei(ip: InodeRef, src: seq<byte>, off: uint) returns (r: int, ok: bool)
      requires Valid(ip) && Synced(ip) && |src| < UINT_LIMIT
      modifies this`bits, this`data, this`own, this`calls, this`logged, this`inodes, ip`d
      ensures ok && r == -1 <==> off > old(ip.d.size) || off + |src| > MAXFILE * BSIZE
      ensures ok && r == -1 ==>
                && bits == old(bits) && data == old(data) && own == old(own) && logged == old(logged)
                && calls == old(calls) && inodes == old(inodes) && ip.d == old(ip.d)
      ensures ok && r != -1 ==> r == |src| && Valid(ip) && Synced(ip)
      ensures ok && r != -1 ==> Contents(ip.d, data) == Splice(old(Contents(ip.d, data)), off, src)
      ensures ok && r != -1 ==> OthersKeep(ip, old(inodes), old(data)) && OtherSlots(inodes, ip.inum, old(data), data)
      ensures ok && r != -1 ==> Fills(old(ip.d), old(data), ip.d, data, off / BSIZE, EndBlock(off, |src|))
      ensures ok && r != -1 ==> ip.d == old(ip.d).(size := ip.d.size, addrs := ip.d.addrs)
      ensures Touches(ip, off, |src|, old(logged))
      ensures Covered(sb, old(Disk()), old(logged), Disk(), logged)
      ensures old(Handed()) && ip.inum < sb.ninodes ==> Handed()
      // the panic, from the free blocks; bytes that exist are overwritten in place
      ensures ok <==> off > old(ip.d.size) || off + |src| > MAXFILE * BSIZE
                      || MissingFor(old(ip.d), old(data), off, |src|) <= FreeCount(old(bits))
      ensures ok && r != -1 ==> FreeCount(old(bits)) == FreeCount(bits) + MissingFor(old(ip.d), old(data), off, |src|)
      ensures off + |src| <= old(ip.d.size) ==> ok
      ensures !ok ==> Full() && OwnedWith(ip) && inodes == old(inodes)
    {
      hide Owned, Grown, Splice, Addr, BitmapSectors, Bytes, IndirectSectors, DataSectors, Covered, HandedOver,
           SlotsKept, Fills, OtherSlots, MissingFor, FreeCount, EndBlock;
      CoveredNone(sb, Disk(), logged);
      if off > ip.d.size || (off + |src|) % UINT_LIMIT < off || off + |src| > MAXFILE * BSIZE {
        return -1, true;
      }
      ok := WriteAll(ip, src, off);
      r := |src|;
    }

    /** The sectors that writing n bytes at offset off may log besides those logged before. */
    ghost predicate Touches(ip: InodeRef, off: nat, n: nat, logged0: set<nat>)
      reads this, ip
    {
      off + n <= MAXFILE * BSIZE ==>
        logged <= logged0 + {IBlock(ip.inum)} + BitmapSectors(sb) + IndirectSectors(ip.d)
                  + DataSectors(ip.d, data, off / BSIZE, EndBlock(off, n))
    }

    /** writei past its checks. */
    method WriteAll(ip: InodeRef, src: seq<byte>, off: uint) returns (ok: bool)
      requires Valid(ip) && Synced(ip) && off <= ip.d.size && off + |src| <= MAXFILE * BSIZE
      modifies this`bits, this`data, this`own, this`calls, this`logged, this`inodes, ip`d
      ensures ok ==> Valid(ip) && Synced(ip) && OthersKeep(ip, old(inodes), old(data))
                     && OtherSlots(inodes, ip.inum, old(data), data)
      ensures ok ==> Fills(old(ip.d), old(data), ip.d, data, off / BSIZE, EndBlock(off, |src|))
      ensures ok <==> MissingFor(old(ip.d), old(data), off, |src|) <= FreeCount(old(bits))
      ensures ok ==> FreeCount(old(bits)) == FreeCount(bits) + MissingFor(old(ip.d), old(data), off, |src|)
      ensures off + |src| <= old(ip.d.size) ==> ok
      ensures ok ==> Contents(ip.d, data) == Splice(old(Contents(ip.d, data)), off, src)
      ensures ok ==> ip.d == old(ip.d).(size := ip.d.size, addrs := ip.d.addrs)
      ensures Touches(ip, off, |src|, old(logged))
      ensures Covered(sb, old(Disk()), old(logged), Disk(), logged)
      ensures old(Handed()) && ip.inum < sb.ninodes ==> Handed()
      ensures !ok ==> Full() && OwnedWith(ip) && inodes == old(inodes)
    {
      hide Owned, Grown, Splice, Addr, BitmapSectors, Bytes, Covered, HandedOver, MissingFor, FreeCount, EndBlock;
      ghost var c := Contents(ip.d, data);
      ok := WriteBlocks(ip, src, off);
      if ok {
        SpliceAt(c, off, src, 0);
        assert forall j :: 0 <= j < |inodes| && j != ip.inum ==> Table(ip)[j] == inodes[j];
        if |src| > 0 && off + |src| > ip.d.size {
          ghost var disk1, logged1, d1, tab1 := Disk(), logged, ip.d, inodes;
          SetSize(ip, off + |src|);
          CoveredTwice(sb, old(Disk()), old(logged), disk1, logged1, Disk(), logged);
          FillsSame(old(ip.d), old(data), d1, ip.d, data, off / BSIZE, EndBlock(off, |src|));
          BlockRange(off, |src|);
          SectorsSame(d1, ip.d, data, off / BSIZE, EndBlock(off, |src|));
          OtherSlotsSame(tab1, inodes, ip.inum, old(data), data);
        }
      }
    }

    /** The end of writei when the file has grown: the new size, then iupdate. */
    method SetSize(ip: InodeRef, size: nat)
      requires OwnedWith(ip) && Mapped(ip.d, data, size)
      requires forall j :: 0 <= j < |inodes| && j != ip.inum ==> Mapped(inodes[j], data, inodes[j].size)
      modifies this`inodes, this`calls, this`logged, ip`d
      ensures Valid(ip) && Synced(ip) && ip.d == old(ip.d).(size := size)
      ensures inodes == old(inodes)[ip.inum := ip.d] && logged == old(logged) + {IBlock(ip.inum)}
      ensures Contents(ip.d, data) == Bytes(old(ip.d), data, size)
      ensures forall t: nat :: t < NSLOT ==> Addr(ip.d, data, t) == Addr(old(ip.d), data, t)
      ensures Covered(sb, old(Disk()), old(logged), Disk(), logged)
      ensures old(Handed()) && ip.inum < sb.ninodes ==> Handed()
    {
      hide Owned, Addr, Covered, HandedOver;
      ghost var tab, d1 := Table(ip), ip.d;
      ip.d := ip.d.(size := size);
      Iupdate(ip);
      BytesByAddrs(d1, ip.d, data, size);
      OwnedByAddrs(sb, tab, Table(ip), bits, data, own);
    }

    /** The loop of writei. */
    method WriteBlocks(ip: InodeRef, src: seq<byte>, off: uint) returns (ok: bool)
      requires Valid(ip) && Synced(ip) && off <= ip.d.size && off + |src| <= MAXFILE * BSIZE
      modifies this`bits, this`data, this`own, this`calls, this`logged, ip`d
      ensures OwnedWith(ip) && ip.d == old(ip.d).(addrs := ip.d.addrs)
      ensures ok ==> OthersKeep(ip, old(inodes), old(data)) && OtherSlots(inodes, ip.inum, old(data), data)
      ensures ok ==>
                var len := Max(old(ip.d.size), off + |src|);
                Mapped(ip.d, data, len) && Bytes(ip.d, data, len) == Splice(old(Contents(ip.d, data)), off, src)
      ensures off + |src| <= old(ip.d.size) ==> ok && ip.d == old(ip.d)
      ensures ok ==> Fills(old(ip.d), old(data), ip.d, data, off / BSIZE, EndBlock(off, |src|))
      ensures ok <==> MissingFor(old(ip.d), old(data), off, |src|) <= FreeCount(old(bits))
      ensures ok ==> FreeCount(old(bits)) == FreeCount(bits) + MissingFor(old(ip.d), old(data), off, |src|)
      ensures logged <= old(logged) + BitmapSectors(sb) + IndirectSectors(ip.d)
                        + DataSectors(ip.d, data, off / BSIZE, EndBlock(off, |src|))
      ensures Covered(sb, old(Disk()), old(logged), Disk(), logged)
      ensures old(Handed()) ==> Handed()
      ensures !ok ==> Full()
    {
      hide Owned, Grown, Splice, Word, BitmapSectors, Bytes, Addr, IndirectSectors, DataSectors, Covered, HandedOver,
           Missing, FreeCount, Fills, OtherSlots;
      CoveredNone(sb, Disk(), logged);
      ghost var c := Contents(ip.d, data);
      SpliceNone(c, off);
      assert src[..0] == [];
      Unchanged(ip);
      ghost var lo, hi := off / BSIZE, EndBlock(off, |src|);
      WriteStarts(ip.d, data, off, inodes, ip.inum);
      var tot, pos := 0, off;
      ok := true;
      while tot < |src|
        invariant ok && tot <= |src| && pos == off + tot
        invariant OwnedWith(ip) && OthersKeep(ip, old(inodes), old(data)) && inodes == old(inodes)
        invariant ip.d == old(ip.d).(addrs := ip.d.addrs)
        invariant Mapped(ip.d, data, Max(|c|, pos)) && Bytes(ip.d, data, Max(|c|, pos)) == Splice(c, off, src[..tot])
        invariant pos <= |c| ==> ip.d == old(ip.d)
        invariant OtherSlots(inodes, ip.inum, old(data), data)
        invariant Fills(old(ip.d), old(data), ip.d, data, lo, (pos + BSIZE - 1) / BSIZE)
        invariant FreeCount(old(bits)) == FreeCount(bits) + Missing(old(ip.d), old(data), lo, (pos + BSIZE - 1) / BSIZE)
        invariant logged <= old(logged) + BitmapSectors(sb) + IndirectSectors(ip.d)
                            + DataSectors(ip.d, data, lo, (pos + BSIZE - 1) / BSIZE)
        invariant Covered(sb, old(Disk()), old(logged), Disk(), logged) && (old(Handed()) ==> Handed())
      {
        var m := Min(|src| - tot, BSIZE - pos % BSIZE);
        var tot', pos' := tot + m, pos + m;
        ghost var d1, data1, disk1, logged1 := ip.d, data, Disk(), logged;
        ghost var bn, mid, end := pos / BSIZE, (pos + BSIZE - 1) / BSIZE, (pos' + BSIZE - 1) / BSIZE;
        RoundBlocks(off, |src|, pos, pos');
        MissingSplit(old(ip.d), old(data), ip.d, data, lo, mid, bn, end);
        MissingGrows(old(ip.d), old(data), lo, end, hi);
        ok := WriteRound(ip, src, off, tot, pos, tot', pos', c, end);
        CoveredTwice(sb, old(Disk()), old(logged), disk1, logged1, Disk(), logged);
        SectorsGrow(d1, data1, ip.d, data, lo, pos, hi);
        if !ok {
          return;
        }
        SectorsKept(d1, data1, ip.d, data, lo, pos, pos');
        FillsMore(old(ip.d), old(data), d1, data1, ip.d, data, lo, mid, bn, end);
        OtherSlotsTwice(inodes, ip.inum, old(data), data1, data);
        tot, pos := tot', pos';
      }
      assert src[..tot] == src;
    }

    /** One round of that loop: bmap, copy into the buffer, log_write. */
    method WriteRound(ip: InodeRef, src: seq<byte>, off: uint, tot: nat, pos: nat, tot': nat, pos': nat,
                      ghost c: seq<byte>, ghost end: nat)
      returns (ok: bool)
      requires OwnedWith(ip) && off <= |c| <= MAXFILE * BSIZE && pos == off + tot
      requires tot < tot' <= |src| && pos' == off + tot' && pos' - pos <= BSIZE - pos % BSIZE
               && off + |src| <= MAXFILE * BSIZE
      requires Mapped(ip.d, data, Max(|c|, pos)) && Bytes(ip.d, data, Max(|c|, pos)) == Splice(c, off, src[..tot])
      requires end == pos / BSIZE + 1 <= MAXFILE
      modifies this`bits, this`data, this`own, this`calls, this`logged, ip`d
      ensures OwnedWith(ip) && ip.d == old(ip.d).(addrs := ip.d.addrs)
      ensures ok ==> Mapped(ip.d, data, Max(|c|, pos'))
      ensures ok ==> Bytes(ip.d, data, Max(|c|, pos')) == Splice(c, off, src[..tot'])
      ensures ok ==> FilesKept(inodes, ip.inum, old(data), data)
      ensures pos < |c| ==> ok && ip.d == old(ip.d)
      ensures SlotsKept(old(ip.d), old(data), ip.d, data)
      ensures ok ==> OtherSlots(inodes, ip.inum, old(data), data)
      ensures ok ==> Fills(old(ip.d), old(data), ip.d, data, pos / BSIZE, end)
      ensures ok <==> Missing(old(ip.d), old(data), pos / BSIZE, end) <= FreeCount(old(bits))
      ensures ok ==> FreeCount(old(bits)) == FreeCount(bits) + Missing(old(ip.d), old(data), pos / BSIZE, end)
      ensures logged <= old(logged) + BitmapSectors(sb) + IndirectSectors(ip.d)
                        + (if ok then {Addr(ip.d, data, SlotOf(pos / BSIZE))} else {})
      ensures Covered(sb, old(Disk()), old(logged), Disk(), logged)
      ensures old(Handed()) ==> Handed()
      ensures !ok ==> Full()
    {
      hide Owned, Grown, Splice, Word, BitmapSectors, Bytes, FileByte, Addr, IndirectSectors, Covered, HandedOver,
           Missing, FreeCount, Fills, OtherSlots, SlotsKept;
      var bn := pos / BSIZE;
      ghost var tab0, bits0, data0, own0 := Table(ip), bits, data, own;
      assert tab0[ip.inum] == ip.d;
      assert pos < |c| ==> Addr(ip.d, data, SlotOf(bn)) != 0;
      var a;
      a, ok := Bmap(ip, bn);
      if !ok {
        return;
      }
      ghost var tab1, data1, disk1, logged1 := Table(ip), data, Disk(), logged;
      assert tab1[ip.inum] == ip.d;
      SlotInRange(sb, tab1, bits, data, own, ip.inum, SlotOf(bn));
      OwnedSizes(sb, tab1, bits, data, own);
      PutBlock(a, Patch(data[a], pos % BSIZE, src[tot..tot']));
      CoveredTwice(sb, old(Disk()), old(logged), disk1, logged1, Disk(), logged);
      RoundDone(sb, bits0, bits, tab0, data0, own0, tab1, data1, own, ip.inum, c, off, src, tot, tot', pos, pos', bn,
                end, inodes, data);
    }

    /** itrunc: gives back exactly the blocks of its inode, never meets the panic "freeing free
        block", and leaves every other inode, file and bit alone. */
    method Itrunc(ip: InodeRef) returns (ok: bool)
      requires Valid(ip)
      modifies this`bits, this`own, this`calls, this`logged, this`inodes, ip`d
      ensures ok && Valid(ip) && Synced(ip)
      ensures ip.d == old(ip.d).(size := 0, addrs := seq(13, _ => 0))
      ensures inodes == old(inodes)[ip.inum := ip.d]
      ensures |bits| == sb.size && forall b :: 0 <= b < sb.size ==>
                (bits[b] <==> old(bits)[b] && !(b in old(own) && old(own)[b].0 == ip.inum))
      ensures own == map b | b in old(own) && old(own)[b].0 != ip.inum :: old(own)[b]
      ensures logged <= old(logged) + {IBlock(ip.inum)} + BitmapSectors(sb)
      ensures Covered(sb, old(Disk()), old(logged), Disk(), logged)
      ensures old(Handed()) && ip.inum < sb.ninodes ==> Handed()
    {
      hide Owned, Word, Addr, Covered, HandedOver, Returned, BitmapSectors;
      ghost var tab, bits0, d0 := Table(ip), bits, ip.d;
      assert tab[ip.inum] == d0;
      ghost var freed := FreeDirect(ip);
      ghost var disk1, logged1 := Disk(), logged;
      freed := FreeIndirect(ip, tab, bits0, d0, freed);
      CoveredTwice(sb, old(Disk()), old(logged), disk1, logged1, Disk(), logged);
      disk1, logged1 := Disk(), logged;
      Emptied(ip, tab, bits0, freed);
      CoveredTwice(sb, old(Disk()), old(logged), disk1, logged1, Disk(), logged);
      ok := true;
    }

    /** The end of itrunc: size 0, then iupdate. */
    method Emptied(ip: InodeRef, ghost tab: seq<Inode>, ghost bits0: seq<bool>, ghost freed: set<nat>)
      requires |tab| == |inodes| && ip.inum < |tab| && Owned(sb, tab, bits0, data, own) && ip.d.addrs == seq(13, _ => 0)
      requires Returned(bits0, bits, own, ip.inum, freed) && forall s: nat :: s < NSLOT ==> s in freed
      requires AllMapped(tab) && forall j :: 0 <= j < |tab| && j != ip.inum ==> inodes[j] == tab[j]
      modifies this`own, this`calls, this`logged, this`inodes, ip`d
      ensures Valid(ip) && Synced(ip) && ip.d == old(ip.d).(size := 0) && inodes == old(inodes)[ip.inum := ip.d]
      ensures |bits| == sb.size && forall b :: 0 <= b < sb.size ==>
                (bits[b] <==> bits0[b] && !(b in old(own) && old(own)[b].0 == ip.inum))
      ensures own == map b | b in old(own) && old(own)[b].0 != ip.inum :: old(own)[b]
      ensures logged == old(logged) + {IBlock(ip.inum)}
      ensures Covered(sb, old(Disk()), old(logged), Disk(), logged)
      ensures old(Handed()) && ip.inum < sb.ninodes ==> Handed()
    {
      hide Owned, Word, Addr, Covered, HandedOver, Returned;
      OwnedSizes(sb, tab, bits0, data, own);
      ip.d := ip.d.(size := 0);
      own := map b | b in own && own[b].0 != ip.inum :: own[b];
      Iupdate(ip);
      ReturnedSizes(bits0, bits, old(own), ip.inum, freed);
      AllReturned(sb, tab, bits0, data, old(own), bits, ip.inum, freed, Table(ip), own);
      forall j | 0 <= j < |inodes| && j != ip.inum ensures Mapped(Table(ip)[j], data, Table(ip)[j].size) {
        assert tab[j] == Table(ip)[j];
      }
    }

    /** The loop of itrunc over the direct blocks. */
    method FreeDirect(ip: InodeRef) returns (ghost freed: set<nat>)
      requires OwnedWith(ip)
      modifies this`bits, this`calls, this`logged, ip`d
      ensures ip.d == old(ip.d).(addrs := Cleared(old(ip.d).addrs, NDIRECT))
      ensures (forall s: nat :: s in freed <==> s < NDIRECT) && Returned(old(bits), bits, own, ip.inum, freed)
      ensures logged <= old(logged) + BitmapSectors(sb)
      ensures Covered(sb, old(Disk()), old(logged), Disk(), logged)
      ensures old(Handed()) ==> Handed()
    {
      hide Owned, Covered, HandedOver, Returned, Cleared, BitmapSectors;
      CoveredNone(sb, Disk(), logged);
      ghost var tab := Table(ip);
      ReturnedNone(bits, own, ip.inum);
      ClearedNone(ip.d.addrs);
      var i := 0;
      freed := {};
      while i < NDIRECT
        invariant 0 <= i <= NDIRECT && (forall s: nat :: s in freed <==> s < i)
        invariant ip.d == old(ip.d).(addrs := Cleared(old(ip.d).addrs, i))
        invariant Returned(old(bits), bits, own, ip.inum, freed) && logged <= old(logged) + BitmapSectors(sb)
        invariant Covered(sb, old(Disk()), old(logged), Disk(), logged) && (old(Handed()) ==> Handed())
      {
        ghost var disk1, logged1 := Disk(), logged;
        ClearedStep(old(ip.d).addrs, i, i + 1);
        FreeSlot(ip, i, tab, old(bits), freed);
        CoveredTwice(sb, old(Disk()), old(logged), disk1, logged1, Disk(), logged);
        freed := freed + {i};
        i := i + 1;
      }
    }

    method FreeSlot(ip: InodeRef, i: nat, ghost tab: seq<Inode>, ghost bits0: seq<bool>, ghost freed: set<nat>)
      requires ip.inum < |tab| && Owned(sb, tab, bits0, data, own) && i < NDIRECT && i !in freed
               && tab[ip.inum].addrs[i] == ip.d.addrs[i]
      requires Returned(bits0, bits, own, ip.inum, freed)
      modifies this`bits, this`calls, this`logged, ip`d
      ensures ip.d == old(ip.d).(addrs := old(ip.d.addrs)[i := 0])
      ensures Returned(bits0, bits, own, ip.inum, freed + {i}) && logged <= old(logged) + BitmapSectors(sb)
      ensures Covered(sb, old(Disk()), old(logged), Disk(), logged)
      ensures old(Handed()) ==> Handed()
    {
      hide Owned, Covered, HandedOver, Returned;
      CoveredNone(sb, Disk(), logged);
      OwnedSizes(sb, tab, bits0, data, own);
      ReturnSlot(sb, tab, bits0, data, own, bits, ip.inum, freed, i);
      ReturnedSizes(bits0, bits, own, ip.inum, freed);
      assert Addr(tab[ip.inum], data, i) == ip.d.addrs[i];
      if ip.d.addrs[i] != 0 {
        var ok := Bfree(ip.d.addrs[i]);
        assert ok;
        ip.d := ip.d.(addrs := ip.d.addrs[i := 0]);
      }
    }

    /** The second half of itrunc: the entries of the indirect block, then the block itself. */
    method FreeIndirect(ip: InodeRef, ghost tab: seq<Inode>, ghost bits0: seq<bool>, ghost d0: Inode,
                        ghost freed0: set<nat>)
      returns (ghost freed: set<nat>)
      requires ip.inum < |tab| && tab[ip.inum] == d0 && Owned(sb, tab, bits0, data, own)
      requires ip.d == d0.(addrs := Cleared(d0.addrs, NDIRECT))
      requires (forall s: nat :: s in freed0 <==> s < NDIRECT) && Returned(bits0, bits, own, ip.inum, freed0)
      modifies this`bits, this`calls, this`logged, ip`d
      ensures ip.d == d0.(addrs := seq(13, _ => 0))
      ensures Returned(bits0, bits, own, ip.inum, freed) && forall s: nat :: s < NSLOT ==> s in freed
      ensures logged <= old(logged) + BitmapSectors(sb)
      ensures Covered(sb, old(Disk()), old(logged), Disk(), logged)
      ensures old(Handed()) ==> Handed()
    {
      hide Owned, Returned, Covered, HandedOver;
      CoveredNone(sb, Disk(), logged);
      OwnedSizes(sb, tab, bits0, data, own);
      freed := freed0;
      var ind := ip.d.addrs[NDIRECT];
      assert ind == d0.addrs[NDIRECT];
      assert Addr(d0, data, NDIRECT) == ind;
      if ind != 0 {
        SlotInRange(sb, tab, bits0, data, own, ip.inum, NDIRECT);
        var buf := data[ind];
        var j := 0;
        while j < NINDIRECT
          invariant 0 <= j <= NINDIRECT && (forall s: nat :: s in freed <==> s < NDIRECT || NDIRECT < s <= NDIRECT + j)
          invariant Returned(bits0, bits, own, ip.inum, freed)
          invariant ip.d == old(ip.d) && logged <= old(logged) + BitmapSectors(sb)
          invariant Covered(sb, old(Disk()), old(logged), Disk(), logged) && (old(Handed()) ==> Handed())
        {
          ghost var disk1, logged1 := Disk(), logged;
          var s := NDIRECT + 1 + j;
          assert Addr(d0, data, s) == Word(buf, j);
          ReturnSlot(sb, tab, bits0, data, own, bits, ip.inum, freed, s);
          ReturnedSizes(bits0, bits, own, ip.inum, freed);
          if Word(buf, j) != 0 {
            var ok := Bfree(Word(buf, j));
            assert ok;
            CoveredTwice(sb, old(Disk()), old(logged), disk1, logged1, Disk(), logged);
          }
          freed := freed + {s};
          j := j + 1;
        }
        ReturnSlot(sb, tab, bits0, data, own, bits, ip.inum, freed, NDIRECT);
        ReturnedSizes(bits0, bits, own, ip.inum, freed);
        ghost var disk1, logged1 := Disk(), logged;
        var ok := Bfree(ind);
        assert ok;
        CoveredTwice(sb, old(Disk()), old(logged), disk1, logged1, Disk(), logged);
        ip.d := ip.d.(addrs := ip.d.addrs[NDIRECT := 0]);
        freed := freed + {NDIRECT};
      } else {
        freed := NoEntries(sb, tab, bits0, data, own, bits, ip.inum, freed0);
      }
    }

    /** In a valid state every other file is complete. */
    lemma Unchanged(ip: InodeRef)
      requires Valid(ip)
      ensures OthersKeep(ip, inodes, data)
    {
      forall j | 0 <= j < |inodes| && j != ip.inum ensures Mapped(inodes[j], data, inodes[j].size) {
        assert Table(ip)[j] == inodes[j];
      }
    }
  }

  /** The addresses with the first n forgotten. */
  function Cleared(addrs: seq<nat>, n: nat): (c: seq<nat>)
    requires n <= 13 == |addrs|
    ensures |c| == 13
  {
    seq(n, _ => 0) + addrs[n..]
  }

  lemma ClearedNone(addrs: seq<nat>)
    requires |addrs| == 13
    ensures Cleared(addrs, 0) == addrs
  {
  }

  lemma ClearedStep(addrs: seq<nat>, n: nat, m: nat)
    requires n < 13 == |addrs| && m == n + 1
    ensures Cleared(addrs, n)[n] == addrs[n] && Cleared(addrs, m) == Cleared(addrs, n)[n := 0]
  {
  }

  lemma ReturnedNone(bits: seq<bool>, own: map<nat, (nat, nat)>, i: nat)
    ensures Returned(bits, bits, own, i, {})
  {
  }

  lemma ReturnedSizes(bits0: seq<bool>, bits: seq<bool>, own: map<nat, (nat, nat)>, i: nat, freed: set<nat>)
    requires Returned(bits0, bits, own, i, freed)
    ensures |bits| == |bits0|
  {
  }

  /** Without an indirect block there is nothing else to give back. */
  lemma NoEntries(sb: Super, tab: seq<Inode>, bits0: seq<bool>, data: seq<Block>, own: map<nat, (nat, nat)>,
                  bits: seq<bool>, i: nat, freed: set<nat>) returns (freed': set<nat>)
    requires Owned(sb, tab, bits0, data, own) && i < |tab| && tab[i].addrs[NDIRECT] == 0
    requires Returned(bits0, bits, own, i, freed) && forall s: nat :: s in freed <==> s < NDIRECT
    ensures Returned(bits0, bits, own, i, freed') && forall s: nat :: s < NSLOT ==> s in freed'
  {
    freed' := freed;
    var t := NDIRECT;
    while t < NSLOT
      invariant NDIRECT <= t <= NSLOT && forall s: nat :: s in freed' <==> s < t
      invariant Returned(bits0, bits, own, i, freed')
    {
      ReturnSlot(sb, tab, bits0, data, own, bits, i, freed', t);
      freed', t := freed' + {t}, t + 1;
    }
  }

  /** All files other than i that were complete hold the same bytes. */
  ghost predicate FilesKept(tab: seq<Inode>, i: nat, data: seq<Block>, data': seq<Block>) {
    forall j :: 0 <= j < |tab| && j != i && Mapped(tab[j], data, tab[j].size) ==>
      Mapped(tab[j], data', tab[j].size) && Contents(tab[j], data') == Contents(tab[j], data)
  }

  /** All slots of the inodes other than i hold the blocks they held. */
  ghost predicate OtherSlots(tab: seq<Inode>, i: nat, data: seq<Block>, data': seq<Block>) {
    forall j: nat, t: nat :: j < |tab| && j != i && t < NSLOT ==> Addr(tab[j], data', t) == Addr(tab[j], data, t)
  }

  lemma OtherSlotsGrown(tab: seq<Inode>, data: seq<Block>, own: map<nat, (nat, nat)>,
                        tab': seq<Inode>, data': seq<Block>, own': map<nat, (nat, nat)>, i: nat, inodes: seq<Inode>)
    requires i < |tab| == |inodes| && Grown(tab, data, own, tab', data', own', i)
    requires forall j :: 0 <= j < |tab| && j != i ==> inodes[j] == tab[j]
    ensures OtherSlots(inodes, i, data, data')
  {
    hide Addr;
    forall j: nat, t: nat | j < |inodes| && j != i && t < NSLOT
      ensures Addr(inodes[j], data', t) == Addr(inodes[j], data, t)
    {
      assert tab'[j] == tab[j];
    }
  }

  lemma OtherSlotsTwice(tab: seq<Inode>, i: nat, data: seq<Block>, data1: seq<Block>, data2: seq<Block>)
    requires OtherSlots(tab, i, data, data1) && OtherSlots(tab, i, data1, data2)
    ensures OtherSlots(tab, i, data, data2)
  {
    hide Addr;
  }

  lemma RoundKeepsOthers(sb: Super, bits: seq<bool>, bits': seq<bool>,
                         tab: seq<Inode>, data: seq<Block>, own: map<nat, (nat, nat)>,
                         tab': seq<Inode>, data': seq<Block>, own': map<nat, (nat, nat)>,
                         i: nat, bn: nat, o: nat, chunk: seq<byte>, inodes: seq<Inode>)
    requires Owned(sb, tab, bits, data, own) && Owned(sb, tab', bits', data', own') && i < |tab|
    requires Grown(tab, data, own, tab', data', own', i)
    requires bn < MAXFILE && 0 != Addr(tab'[i], data', SlotOf(bn)) < |data'| && o + |chunk| <= BSIZE
    requires |inodes| == |tab| && forall j :: 0 <= j < |tab| && j != i ==> inodes[j] == tab[j]
    ensures FilesKept(inodes, i, data, Patched(tab', data', i, bn, o, chunk))
  {
    forall j | 0 <= j < |inodes| && j != i && Mapped(inodes[j], data, inodes[j].size)
      ensures var data'' := Patched(tab', data', i, bn, o, chunk);
              Mapped(inodes[j], data'', inodes[j].size) && Contents(inodes[j], data'') == Contents(inodes[j], data)
    {
      GrownKeepsBytes(sb, bits, tab, data, own, tab', data', own', i, j, tab[j].size);
      PatchKeepsOthers(sb, tab', bits', data', own', i, bn, o, chunk, j, tab[j].size);
    }
  }

  lemma RoundKeepsSlots(tab: seq<Inode>, data: seq<Block>, own: map<nat, (nat, nat)>,
                        tab': seq<Inode>, data': seq<Block>, own': map<nat, (nat, nat)>, i: nat, data'': seq<Block>,
                        inodes: seq<Inode>, bn: nat, end: nat)
    requires i < |tab| && Grown(tab, data, own, tab', data', own', i)
    requires Fills(tab[i], data, tab'[i], data', bn, end)
    requires forall j: nat, t: nat :: j < |tab'| && t < NSLOT ==> Addr(tab'[j], data'', t) == Addr(tab'[j], data', t)
    requires |inodes| == |tab| && forall j :: 0 <= j < |tab| && j != i ==> inodes[j] == tab[j]
    ensures SlotsKept(tab[i], data, tab'[i], data'') && OtherSlots(inodes, i, data, data'')
    ensures Fills(tab[i], data, tab'[i], data'', bn, end)
  {
    hide Addr;
    OtherSlotsGrown(tab, data, own, tab', data', own', i, inodes);
    forall j: nat, t: nat | j < |inodes| && j != i && t < NSLOT
      ensures Addr(inodes[j], data'', t) == Addr(inodes[j], data', t)
    {
      assert tab'[j] == tab[j];
    }
  }

  /** What one round comes to. */
  lemma RoundDone(sb: Super, bits0: seq<bool>, bits: seq<bool>, tab0: seq<Inode>, data0: seq<Block>,
                  own0: map<nat, (nat, nat)>, tab: seq<Inode>, data: seq<Block>, own: map<nat, (nat, nat)>, i: nat,
                  c: seq<byte>, off: nat, src: seq<byte>, tot: nat, tot': nat, pos: nat, pos': nat, bn: nat, end: nat,
                  inodes: seq<Inode>, data': seq<Block>)
    requires Owned(sb, tab0, bits0, data0, own0) && Owned(sb, tab, bits, data, own) && i < |tab0| == |tab|
    requires Grown(tab0, data0, own0, tab, data, own, i) && Fills(tab0[i], data0, tab[i], data, bn, end)
    requires off <= |c| <= MAXFILE * BSIZE && pos == off + tot && bn == pos / BSIZE && end == bn + 1 <= MAXFILE
    requires tot < tot' <= |src| && pos' == off + tot' <= MAXFILE * BSIZE && pos' - pos <= BSIZE - pos % BSIZE
    requires Mapped(tab0[i], data0, Max(|c|, pos)) && Bytes(tab0[i], data0, Max(|c|, pos)) == Splice(c, off, src[..tot])
    requires 0 != Addr(tab[i], data, SlotOf(bn)) < |data|
             && data' == Patched(tab, data, i, bn, pos % BSIZE, src[tot..tot'])
    requires |inodes| == |tab| && forall j :: 0 <= j < |tab0| && j != i ==> inodes[j] == tab0[j]
    ensures Owned(sb, tab, bits, data', own) && Mapped(tab[i], data', Max(|c|, pos'))
    ensures Bytes(tab[i], data', Max(|c|, pos')) == Splice(c, off, src[..tot'])
    ensures FilesKept(inodes, i, data0, data') && SlotsKept(tab0[i], data0, tab[i], data')
            && OtherSlots(inodes, i, data0, data')
    ensures Fills(tab0[i], data0, tab[i], data', bn, end)
    ensures Addr(tab[i], data', SlotOf(bn)) == Addr(tab[i], data, SlotOf(bn))
  {
    hide Owned, Grown, Splice, Bytes, Addr, Fills, OtherSlots, SlotsKept, FilesKept, Patched;
    GrownKeepsBytes(sb, bits0, tab0, data0, own0, tab, data, own, i, i, Max(|c|, pos));
    WriteStep(sb, tab, bits, data, own, i, c, off, src, tot, tot', pos, pos', bn);
    PatchKeepsOwned(sb, tab, bits, data, own, i, bn, pos % BSIZE, src[tot..tot']);
    RoundKeepsOthers(sb, bits0, bits, tab0, data0, own0, tab, data, own, i, bn, pos % BSIZE, src[tot..tot'], inodes);
    RoundKeepsSlots(tab0, data0, own0, tab, data, own, i, data', inodes, bn, end);
  }

  lemma OtherSlotsSame(tab: seq<Inode>, tab': seq<Inode>, i: nat, data: seq<Block>, data': seq<Block>)
    requires OtherSlots(tab, i, data, data') && |tab'| == |tab| && forall j :: 0 <= j < |tab| && j != i ==>
             tab'[j] == tab[j]
    ensures OtherSlots(tab', i, data, data')
  {
    hide Addr;
  }

  /** Before the first round. */
  lemma WriteStarts(d: Inode, data: seq<Block>, off: nat, tab: seq<Inode>, i: nat)
    requires Mapped(d, data, d.size) && off <= d.size
    ensures (off + BSIZE - 1) / BSIZE <= MAXFILE && OtherSlots(tab, i, data, data)
    ensures Fills(d, data, d, data, off / BSIZE, (off + BSIZE - 1) / BSIZE)
    ensures Missing(d, data, off / BSIZE, (off + BSIZE - 1) / BSIZE) == 0
  {
    FillsNone(d, data, off / BSIZE, (off + BSIZE - 1) / BSIZE, d.size);
    assert Mapped(d, data, off);
    MissingNone(d, data, off, 0);
  }

  /** The blocks of one round. */
  lemma RoundBlocks(off: nat, n: nat, pos: nat, pos': nat)
    requires off <= pos < pos' <= off + n <= MAXFILE * BSIZE && pos' - pos <= BSIZE - pos % BSIZE
    ensures var bn, mid, end := pos / BSIZE, (pos + BSIZE - 1) / BSIZE, (pos' + BSIZE - 1) / BSIZE;
            off / BSIZE <= bn <= mid <= end == bn + 1 <= EndBlock(off, n) <= MAXFILE
  {
  }

  lemma SectorsSame(d: Inode, d': Inode, data: seq<Block>, lo: nat, hi: nat)
    requires d'.addrs == d.addrs && hi <= MAXFILE
    ensures DataSectors(d', data, lo, hi) == DataSectors(d, data, lo, hi) && IndirectSectors(d') == IndirectSectors(d)
  {
    assert forall b: nat :: lo <= b < hi ==> Addr(d', data, SlotOf(b)) == Addr(d, data, SlotOf(b));
  }

  /** The sectors logged before a round are among those of the whole write. */
  lemma SectorsGrow(d: Inode, data: seq<Block>, d': Inode, data': seq<Block>, lo: nat, pos: nat, hi: nat)
    requires SlotsKept(d, data, d', data') && Mapped(d, data, pos) && (pos + BSIZE - 1) / BSIZE <= hi <= MAXFILE
    ensures IndirectSectors(d) <= IndirectSectors(d')
    ensures DataSectors(d, data, lo, (pos + BSIZE - 1) / BSIZE) <= DataSectors(d', data', lo, hi)
  {
    assert Addr(d, data, NDIRECT) == d.addrs[NDIRECT] && Addr(d', data', NDIRECT) == d'.addrs[NDIRECT];
    var mid := (pos + BSIZE - 1) / BSIZE;
    forall b: nat | lo <= b < mid ensures Addr(d, data, SlotOf(b)) in DataSectors(d', data', lo, hi) {
      assert b * BSIZE < pos;
      assert Addr(d', data', SlotOf(b)) == Addr(d, data, SlotOf(b));
    }
  }

  /** The sectors written so far stay among the sectors of the file. */
  lemma SectorsKept(d: Inode, data: seq<Block>, d': Inode, data': seq<Block>, lo: nat, pos: nat, pos': nat)
    requires SlotsKept(d, data, d', data') && Mapped(d, data, pos) && pos < pos' <= MAXFILE * BSIZE
    requires lo <= pos / BSIZE
    ensures IndirectSectors(d) <= IndirectSectors(d')
    ensures DataSectors(d, data, lo, (pos + BSIZE - 1) / BSIZE) + {Addr(d', data', SlotOf(pos / BSIZE))}
            <= DataSectors(d', data', lo, (pos' + BSIZE - 1) / BSIZE)
  {
    assert Addr(d, data, NDIRECT) == d.addrs[NDIRECT] && Addr(d', data', NDIRECT) == d'.addrs[NDIRECT];
    var hi, hi' := (pos + BSIZE - 1) / BSIZE, (pos' + BSIZE - 1) / BSIZE;
    assert hi <= hi' && pos / BSIZE < hi';
    forall b: nat | lo <= b < hi ensures Addr(d, data, SlotOf(b)) in DataSectors(d', data', lo, hi') {
      assert b * BSIZE < pos;
      assert Addr(d', data', SlotOf(b)) == Addr(d, data, SlotOf(b));
    }
  }

  function Min(a: nat, b: nat): (m: nat)
    ensures m <= a && m <= b && (m == a || m == b)
  {
    if a < b then a else b
  }

  /** Bytes within one block are contiguous in the file. */
  lemma ReadStep(d: Inode, data: seq<Block>, pos: nat, m: nat, bn: nat, o: nat)
    requires d.size <= MAXFILE * BSIZE && pos + m <= d.size && bn == pos / BSIZE && o == pos % BSIZE
    requires 0 < m <= BSIZE - o && Addr(d, data, SlotOf(bn)) < |data|
    ensures Contents(d, data)[pos..pos + m] == data[Addr(d, data, SlotOf(bn))][o..o + m]
  {
    var want, got := data[Addr(d, data, SlotOf(bn))][o..o + m], Contents(d, data)[pos..pos + m];
    forall k | 0 <= k < m ensures got[k] == want[k] {
      assert (pos + k) / BSIZE == bn && (pos + k) % BSIZE == o + k;
    }
  }
}
