/** The link, unlink and create transactions of xv6/sysfile.c over dirlookup, dirlink and ialloc of xv6/fs.c, on
    the bytes of the disk. Every change to an inode is followed by iupdate, so the in-memory copies are taken
    afresh from the disk. */
module SysFile {
  import opened Blocks
  import opened Prelude
  import opened FsState
  import opened FsSpace
  import opened FsImage
  import opened Fs
  import opened File
  import opened Dirs
  import opened DirImage

  datatype Linking = Taken | Full | Entered(off: nat)

  datatype Status = Ok | Failed | Panics

  datatype Creation = Refused | Existing(inum: nat) | Created(inum: nat, at: nat) | Panic

  /** The sectors that writing entry k may touch besides inode and bitmap. */
  ghost function EntrySectors(d: Inode, data: seq<Block>, k: nat): set<nat>
    requires k < MAXENTRIES
  {
    IndirectSectors(d) + {Addr(d, data, SlotOf(k / PER_BLOCK))}
  }

  lemma EntryBlock(d: Inode, data: seq<Block>, k: nat, off: nat)
    requires k < MAXENTRIES && off == DIRENT * k
    ensures off + DIRENT <= MAXFILE * BSIZE
    ensures off / BSIZE == k / PER_BLOCK && EndBlock(off, DIRENT) == k / PER_BLOCK + 1 <= MAXFILE
    ensures IndirectSectors(d) + DataSectors(d, data, off / BSIZE, EndBlock(off, DIRENT)) == EntrySectors(d, data, k)
  {
    var lo, hi := off / BSIZE, EndBlock(off, DIRENT);
    assert lo == k / PER_BLOCK && hi == lo + 1;
    assert DataSectors(d, data, lo, hi) == {Addr(d, data, SlotOf(lo))};
  }

  /** At most two sectors, none of them in the log. */
  ghost predicate Few(sb: Super, touched: set<nat>) {
    |touched| <= 2 && (DataStart(sb) <= LogStart(sb) ==> forall s :: s in touched ==> s < LogStart(sb))
  }

  lemma TouchedFew(sb: Super, tab: seq<Inode>, bits: seq<bool>, data: seq<Block>, own: map<nat, (nat, nat)>, d: nat,
                   k: nat)
    requires Owned(sb, tab, bits, data, own) && d < |tab| <= sb.ninodes && k < MAXENTRIES
    ensures Few(sb, EntrySectors(tab[d], data, k))
  {
    hide Owned, BitmapSectors;
    var touched := EntrySectors(tab[d], data, k);
    EntryBlock(tab[d], data, k, DIRENT * k);
    if DataStart(sb) <= LogStart(sb) {
      forall s | s in touched ensures s < LogStart(sb) {
        BelowLog(sb, tab, bits, data, own, d, DIRENT * k / BSIZE, EndBlock(DIRENT * k, DIRENT), s);
      }
    }
  }

  /** The blocks that writing entry k of directory d takes. */
  ghost function EntryNeeds(v: Parts, d: nat, k: nat): nat {
    if d < |v.inodes| && k < MAXENTRIES then
      var bn := k / PER_BLOCK;
      Missing(v.inodes[d], v.data, bn, bn + 1)
    else 0
  }

  /** dirlink panics: the directory is full, or, `more` blocks having been taken before, the disk is. */
  ghost predicate NoPlace(v: Parts, es: seq<Dirent>, d: nat, more: nat) {
    NoRoom(es) || more + EntryNeeds(v, d, Vacant(es, 0)) > FreeCount(v.bits)
  }

  /** What an entry needs depends on the directory's blocks alone. */
  lemma NeedsSame(v: Parts, w: Parts, d: nat, k: nat)
    requires d < |v.inodes| == |w.inodes|
    requires forall t: nat :: t < NSLOT ==> Addr(w.inodes[d], w.data, t) == Addr(v.inodes[d], v.data, t)
    ensures EntryNeeds(w, d, k) == EntryNeeds(v, d, k)
  {
    if k < MAXENTRIES {
      var bn := k / PER_BLOCK;
      MissingOne(v.inodes[d], v.data, bn, bn + 1);
      MissingOne(w.inodes[d], w.data, bn, bn + 1);
      assert Addr(w.inodes[d], w.data, NDIRECT) == Addr(v.inodes[d], v.data, NDIRECT);
    }
  }

  lemma NeedsByAddrs(v: Parts, w: Parts, d: nat, k: nat)
    requires d < |v.inodes| == |w.inodes| && w.data == v.data && w.inodes[d].addrs == v.inodes[d].addrs
    ensures EntryNeeds(w, d, k) == EntryNeeds(v, d, k)
  {
    forall t: nat | t < NSLOT ensures Addr(w.inodes[d], w.data, t) == Addr(v.inodes[d], v.data, t) {
    }
    NeedsSame(v, w, d, k);
  }

  lemma NeedsOther(v: Parts, w: Parts, x: nat, d: nat, k: nat)
    requires d < |v.inodes| == |w.inodes| && w.inodes[d] == v.inodes[d] && d != x
             && OtherSlots(w.inodes, x, v.data, w.data)
    ensures EntryNeeds(w, d, k) == EntryNeeds(v, d, k)
  {
    hide Addr;
    NeedsSame(v, w, d, k);
  }

  /** The first entry of a new directory takes one block, the second none. */
  lemma DotNeeds(v: Parts, d: nat)
    requires d < |v.inodes|
    ensures v.inodes[d].addrs == seq(13, _ => 0) ==> EntryNeeds(v, d, 0) == 1
    ensures Addr(v.inodes[d], v.data, 0) != 0 ==> EntryNeeds(v, d, 1) == 0
  {
    MissingOne(v.inodes[d], v.data, 0, 1);
  }

  /** Two inodes, the bitmap and two entries are at most seven sectors. */
  lemma FewSectors(sb: Super, a: nat, b: nat, t: set<nat>, u: set<nat>, logged: set<nat>)
    requires a < sb.ninodes && b < sb.ninodes && Few(sb, t) && Few(sb, u)
    requires logged <= {IBlock(a), IBlock(b)} + BitmapSectors(sb) + t + u
    ensures Small(sb, ROOTINO, logged)
  {
    if sb.size <= BPB {
      var meta := {IBlock(a), IBlock(b), BBlock(sb, 0)};
      assert BitmapSectors(sb) <= {BBlock(sb, 0)} by {
        forall n: nat | n < sb.size ensures BBlock(sb, n) == BBlock(sb, 0) {
          assert n / BPB == 0;
        }
      }
      SubsetCount(logged, meta + t + u);
    }
    if Layout(sb, ROOTINO) {
      forall s | s in logged ensures s < LogStart(sb) {
        MetaBelowLog(sb, a, s);
        MetaBelowLog(sb, b, s);
      }
    }
  }

  lemma MetaBelowLog(sb: Super, a: nat, s: nat)
    requires a < sb.ninodes && DataStart(sb) <= LogStart(sb)
    ensures s == IBlock(a) || s in BitmapSectors(sb) ==> s < LogStart(sb)
  {
    assert a / IPB <= sb.ninodes / IPB;
    if s in BitmapSectors(sb) {
      var n: nat :| n < sb.size && s == BBlock(sb, n);
      assert n / BPB <= sb.size / BPB;
    }
  }

  /** The second entry of a new directory lies in the block of the first. */
  lemma DotsSectors(sb: Super, v: Parts, own: map<nat, (nat, nat)>, x: nat, d: Inode, data: seq<Block>)
    requires Settled(sb, v, own) && x < |v.inodes| && v.inodes[x].size > 0 && SlotsKept(v.inodes[x], v.data, d, data)
    ensures EntrySectors(v.inodes[x], v.data, 0) <= EntrySectors(d, data, 1)
  {
    var d0 := v.inodes[x];
    assert Addr(d0, v.data, SlotOf(0)) != 0 by { assert 0 * BSIZE < d0.size; }
    assert Addr(d0, v.data, NDIRECT) == d0.addrs[NDIRECT];
    assert Addr(d, data, NDIRECT) == d.addrs[NDIRECT];
  }

  lemma InTree(v: Parts, fs: Nodes, x: nat)
    requires TreeOn(v, fs) && x in fs
    ensures x < |v.inodes| && v.inodes[x].typ == Code(fs[x].kind) && v.inodes[x].nlink == fs[x].nlink
    ensures FitsDir(fs[x].entries, |v.inodes|) && v.inodes[x].size <= MAXFILE * BSIZE
    ensures fs[x].kind.T_DIR? ==> Contents(v.inodes[x], v.data) == DirBytes(fs[x].entries)
  {
    assert NodeOn(v, fs, x);
  }

  lemma PutFits(es: seq<Dirent>, k: nat, e: Dirent, n: nat)
    requires FitsDir(es, n) && k <= |es| && k < MAXENTRIES && e.inum < n && |e.name| <= DIRSIZ && IsName(e.name)
    ensures FitsDir(Put(es, k, e), n)
  {
  }

  class Namespace {
    const disk: FileSystem
    /** The tree that the disk's bytes say, where each directory hangs, and the disk at begin_trans. */
    ghost var nodes: Nodes
    ghost var slot: Places
    ghost var start: Parts

    /** What has changed since begin_trans has been handed to log_write. */
    ghost predicate Pending()
      reads this, disk
    {
      Covered(disk.sb, start, {}, disk.Disk(), disk.logged) && disk.Handed()
    }

    /** And the disk holds the tree. */
    ghost predicate Backed()
      reads this, disk
    {
      Settled(disk.sb, disk.Disk(), disk.own) && TreeOn(disk.Disk(), nodes) && Pending()
    }

    ghost predicate Valid()
      reads this, disk
    {
      Backed() && Inv(nodes, slot)
    }

    constructor (disk: FileSystem, ghost nodes: Nodes, ghost slot: Places)
      requires Settled(disk.sb, disk.Disk(), disk.own) && TreeOn(disk.Disk(), nodes)
      requires disk.calls == [] && disk.logged == {}
      ensures Backed() && this.disk == disk && this.nodes == nodes && this.slot == slot
    {
      this.disk, this.nodes, this.slot, start := disk, nodes, slot, disk.Disk();
      new;
      HandedNone(disk.sb, disk.Disk());
    }

    /** begin_trans. */
    method Begin()
      requires Backed()
      modifies this`start, disk`calls, disk`logged
      ensures Backed() && start == disk.Disk() && disk.logged == {} && disk.calls == []
    {
      hide Settled, TreeOn;
      disk.calls, disk.logged, start := [], {}, disk.Disk();
      HandedNone(disk.sb, disk.Disk());
      CoveredNone(disk.sb, disk.Disk(), {});
    }

    /** Links or device numbers of inode x change, and iupdate. */
    method Update(x: nat, d: Inode)
      requires Backed() && x in nodes && x < |disk.inodes|
      requires d == disk.inodes[x].(major := d.major, minor := d.minor, nlink := d.nlink)
      requires IsShort(d.major) && IsShort(d.minor)
      modifies this`nodes, disk
      ensures Backed() && nodes == old(nodes)[x := old(nodes)[x].(nlink := d.nlink)]
      ensures disk.logged == old(disk.logged) + {IBlock(x)}
      ensures disk.Disk() == old(disk.Disk()).(inodes := old(disk.inodes)[x := d])
    {
      hide Owned, TreeOn, Covered, HandedOver;
      ghost var v, l := disk.Disk(), disk.logged;
      var ip := new InodeRef(x, d);
      disk.Iupdate(ip);
      CoveredTwice(disk.sb, start, {}, v, l, disk.Disk(), disk.logged);
      NodeUpdated(disk.sb, v, disk.own, nodes, x, d, disk.Disk());
      nodes := nodes[x := nodes[x].(nlink := d.nlink)];
    }

    method AddLinks(x: nat, delta: int)
      requires Backed() && x in nodes
      modifies this`nodes, disk
      ensures Backed() && nodes == old(nodes)[x := old(nodes)[x].(nlink := old(nodes)[x].nlink + delta)]
      ensures disk.logged == old(disk.logged) + {IBlock(x)} && x < |disk.inodes| == |old(disk.inodes)|
      ensures disk.Disk() == old(disk.Disk()).(inodes := old(disk.inodes)[x := disk.inodes[x]])
      ensures disk.inodes[x].addrs == old(disk.inodes)[x].addrs
    {
      hide Owned, TreeOn, Covered, HandedOver;
      InTree(disk.Disk(), nodes, x);
      var d := disk.inodes[x];
      Update(x, d.(nlink := d.nlink + delta));
    }

    /** writei of one struct dirent. Fails only by the panic "balloc: out of blocks", exactly when fewer blocks are
        free than the entry needs. */
    method WriteEntry(d: nat, k: nat, ghost e: Dirent, de: seq<byte>) returns (ok: bool, ghost touched: set<nat>)
      requires Backed() && IsDir(nodes, d) && k <= |nodes[d].entries| && k < MAXENTRIES && de == DirentBytes(e)
      requires e.inum < |disk.inodes| && |e.name| <= DIRSIZ && IsName(e.name) && d < |disk.inodes|
      modifies this`nodes, disk
      ensures ok ==> Backed() && nodes == old(nodes)[d := old(nodes)[d].(entries := Put(old(nodes)[d].entries, k, e))]
      ensures Pending() && |disk.inodes| == |old(disk.inodes)|
      ensures ok ==> touched == EntrySectors(disk.inodes[d], disk.data, k)
      ensures disk.logged <= old(disk.logged) + {IBlock(d)} + BitmapSectors(disk.sb) + touched && Few(disk.sb, touched)
      ensures ok ==> SlotsKept(old(disk.inodes[d]), old(disk.data), disk.inodes[d], disk.data)
      ensures ok ==> Addr(disk.inodes[d], disk.data, SlotOf(k / PER_BLOCK)) != 0
      ensures ok ==> OtherSlots(disk.inodes, d, old(disk.data), disk.data)
      ensures ok ==> forall j :: 0 <= j < |disk.inodes| && j != d ==> disk.inodes[j] == old(disk.inodes)[j]
      ensures k < |old(nodes)[d].entries| ==> ok
      ensures ok <==> EntryNeeds(old(disk.Disk()), d, k) <= FreeCount(old(disk.bits))
      ensures ok ==> FreeCount(old(disk.bits)) == FreeCount(disk.bits) + EntryNeeds(old(disk.Disk()), d, k)
    {
      hide Owned, TreeOn, Covered, HandedOver, Splice, Bytes, BitmapSectors, IndirectSectors, DataSectors, EntrySectors,
           SlotsKept, FitsDir, DirBytes, DirentBytes, Missing, FreeCount, OtherSlots, Addr, Few;
      ghost var v, l := disk.Disk(), disk.logged;
      InTree(v, nodes, d);
      ghost var es := nodes[d].entries;
      PutBytes(es, k, e, DIRENT * k);
      PutFits(es, k, e, |disk.inodes|);
      var ip := new InodeRef(d, disk.inodes[d]);
      assert disk.Table(ip) == disk.inodes;
      EntryBlock(ip.d, disk.data, k, DIRENT * k);
      var r;
      r, ok := disk.Writei(ip, de, DIRENT * k);
      touched := EntrySectors(ip.d, disk.data, k);
      EntryBlock(ip.d, disk.data, k, DIRENT * k);
      TouchedFew(disk.sb, disk.Table(ip), disk.bits, disk.data, disk.own, d, k);
      CoveredTwice(disk.sb, start, {}, v, l, disk.Disk(), disk.logged);
      if !ok {
        return;
      }
      assert disk.Table(ip) == disk.inodes;
      NodeWritten(disk.sb, v, nodes, d, Put(es, k, e), disk.Disk(), disk.own);
      nodes := nodes[d := nodes[d].(entries := Put(es, k, e))];
    }

    /** readi of one struct dirent. */
    method ReadEntry(d: nat, k: nat) returns (e: Dirent)
      requires Backed() && IsDir(nodes, d) && k < |nodes[d].entries|
      modifies disk
      ensures Backed() && e == nodes[d].entries[k] && disk.Disk() == old(disk.Disk()) && disk.logged == old(disk.logged)
    {
      hide Owned, TreeOn, Covered, HandedOver, Bytes, DirBytes, DirentBytes, DirentOf;
      InTree(disk.Disk(), nodes, d);
      ghost var es := nodes[d].entries;
      EntryBytes(es, k, DIRENT * k);
      DirentRoundTrip(es[k]);
      var ip := new InodeRef(d, disk.inodes[d]);
      assert disk.Table(ip) == disk.inodes;
      var r, b := disk.Readi(ip, DIRENT * k, DIRENT);
      e := DirentOf(b);
    }

    /** dirlookup, which panics unless d is a directory. */
    method DirLookup(d: nat, name: Name) returns (k: Option<nat>)
      requires Backed() && IsDir(nodes, d)
      modifies disk
      ensures Backed() && disk.Disk() == old(disk.Disk()) && disk.logged == old(disk.logged)
      ensures k == At(nodes, d, name)
      ensures k.Some? <==> Present(nodes[d].entries, Short(name))
    {
      hide Settled, TreeOn, Covered, HandedOver, Bytes, DirBytes, Find;
      InTree(disk.Disk(), nodes, d);
      ghost var es := nodes[d].entries;
      var off := 0;
      FindHere(es, Short(name), 0);
      while DIRENT * off < disk.inodes[d].size
        invariant 0 <= off <= |es| && disk.Disk() == old(disk.Disk()) && disk.logged == old(disk.logged) && Backed()
        invariant Find(es, Short(name), off) == At(nodes, d, name)
      {
        FindHere(es, Short(name), off);
        var e := ReadEntry(d, off);
        if e.inum != 0 && e.name == Short(name) {
          return Some(off);
        }
        off := off + 1;
      }
      FindHere(es, Short(name), off);
      return None;
    }

    /** dirlink: a name already present is refused; otherwise the first free entry is used, if the file can hold it. */
    method DirLink(d: nat, name: Name, inum: nat) returns (r: Linking, ghost touched: set<nat>)
      requires Backed() && IsDir(nodes, d) && inum < |disk.inodes|
      modifies this`nodes, disk
      ensures (!r.Full? ==> Backed()) && Pending() && |disk.inodes| == |old(disk.inodes)|
      ensures r.Taken? <==> Present(old(nodes)[d].entries, Short(name))
      ensures r.Full? <==> !Present(old(nodes)[d].entries, Short(name))
                           && NoPlace(old(disk.Disk()), old(nodes)[d].entries, d, 0)
      ensures r.Taken? ==> nodes == old(nodes) && disk.logged == old(disk.logged)
      ensures r.Entered? ==> FirstFree(old(nodes)[d].entries, r.off) && r.off < MAXENTRIES
                             && r.off == Vacant(old(nodes)[d].entries, 0)
      ensures r.Entered? ==>
                nodes == old(nodes)[d := old(nodes)[d].(entries := Put(old(nodes)[d].entries, r.off,
                                                                       Dirent(inum, Short(name))))]
      ensures d < |disk.inodes| && Few(disk.sb, touched)
      ensures r.Entered? ==> touched == EntrySectors(disk.inodes[d], disk.data, r.off)
      ensures r.Entered? ==> SlotsKept(old(disk.inodes)[d], old(disk.data), disk.inodes[d], disk.data)
      ensures r.Entered? ==> Addr(disk.inodes[d], disk.data, SlotOf(r.off / PER_BLOCK)) != 0
      ensures r.Entered? ==> OtherSlots(disk.inodes, d, old(disk.data), disk.data)
      ensures r.Entered? ==> forall j :: 0 <= j < |disk.inodes| && j != d ==> disk.inodes[j] == old(disk.inodes)[j]
      ensures r.Entered? ==> FreeCount(old(disk.bits)) == FreeCount(disk.bits) + EntryNeeds(old(disk.Disk()), d, r.off)
      ensures disk.logged <= old(disk.logged) + {IBlock(d)} + BitmapSectors(disk.sb) + touched
    {
      hide Settled, TreeOn, Covered, HandedOver, Bytes, DirBytes, Find, BitmapSectors, EntrySectors, SlotsKept, Present,
           FreeCount, EntryNeeds, OtherSlots, Addr, Few, DirentBytes;
      FewNone(disk.sb);
      touched := {};
      InTree(disk.Disk(), nodes, d);
      var found := DirLookup(d, name);
      if found.Some? {
        return Taken, {};
      }
      ghost var es := nodes[d].entries;
      var off := 0;
      while DIRENT * off < disk.inodes[d].size
        invariant 0 <= off <= |es| && disk.Disk() == old(disk.Disk()) && disk.logged == old(disk.logged) && Backed()
        invariant nodes == old(nodes) && forall j :: 0 <= j < off ==> es[j].inum != 0
      {
        var e := ReadEntry(d, off);
        if e.inum == 0 {
          break;
        }
        off := off + 1;
      }
      VacantIs(es, 0, off);
      if DIRENT * off + DIRENT > MAXFILE * BSIZE {
        return Full, {};
      }
      var ok;
      var de := Dirent(inum, Short(name));
      ok, touched := WriteEntry(d, off, de, DirentBytes(de));
      r := if ok then Entered(off) else Full;
    }

    method IsDirEmpty(x: nat) returns (empty: bool)
      requires Backed() && IsDir(nodes, x)
      modifies disk
      ensures Backed() && disk.Disk() == old(disk.Disk()) && disk.logged == old(disk.logged)
      ensures empty <==> EmptyDir(nodes[x].entries)
    {
      hide Settled, TreeOn, Covered, HandedOver, Bytes, DirBytes;
      InTree(disk.Disk(), nodes, x);
      ghost var es := nodes[x].entries;
      var off := 2;
      while DIRENT * off < disk.inodes[x].size
        invariant 2 <= off && disk.Disk() == old(disk.Disk()) && disk.logged == old(disk.logged) && Backed()
        invariant forall k :: 2 <= k < off && k < |es| ==> es[k].inum == 0
      {
        var e := ReadEntry(x, off);
        if e.inum != 0 {
          return false;
        }
        off := off + 1;
      }
      return true;
    }

    /** ialloc: the lowest free inode number. */
    method Ialloc(kind: Kind) returns (x: Option<nat>)
      requires Backed()
      modifies this`nodes, disk
      ensures Backed() && |disk.inodes| == |old(disk.inodes)|
      ensures x.None? ==> nodes == old(nodes) && forall i :: 1 <= i < |disk.inodes| ==> i in nodes
      ensures x.Some? ==> 1 <= x.value < |disk.inodes| && x.value !in old(nodes)
                          && nodes == old(nodes)[x.value := Node(kind, 0, [])]
      ensures x.Some? ==> forall i :: 1 <= i < x.value ==> i in old(nodes)
      ensures x.Some? ==> disk.logged == old(disk.logged) + {IBlock(x.value)}
      ensures x.None? ==> disk.logged == old(disk.logged) && disk.Disk() == old(disk.Disk())
      ensures x.Some? ==> disk.Disk() == old(disk.Disk()).(inodes := old(disk.inodes)[x.value := NewInode(kind)])
    {
      hide Owned, TreeOn, Covered, HandedOver;
      var inum := 1;
      while inum < |disk.inodes|
        invariant 1 <= inum && nodes == old(nodes) && Backed() && disk.Disk() == old(disk.Disk())
                  && disk.logged == old(disk.logged)
        invariant forall i :: 1 <= i < inum && i < |disk.inodes| ==> i in nodes
      {
        Allocated(disk.Disk(), nodes, inum);
        if disk.inodes[inum].typ == 0 {
          ghost var v, l := disk.Disk(), disk.logged;
          var ip := new InodeRef(inum, NewInode(kind));
          disk.Iupdate(ip);
          CoveredTwice(disk.sb, start, {}, v, l, disk.Disk(), disk.logged);
          NodeMade(disk.sb, v, disk.own, nodes, inum, kind, disk.Disk());
          nodes := nodes[inum := Node(kind, 0, [])];
          return Some(inum);
        }
        inum := inum + 1;
      }
      return None;
    }

    /** iput: unless the inode is held elsewhere, one without links loses its blocks and becomes free. */
    method Iput(x: nat, held: bool)
      requires Backed() && x in nodes
      modifies this`nodes, disk
      ensures Backed() && |disk.inodes| == |old(disk.inodes)|
      ensures nodes == if old(nodes)[x].nlink == 0 && !held then old(nodes) - {x} else old(nodes)
      ensures disk.logged <= old(disk.logged) + {IBlock(x)} + BitmapSectors(disk.sb)
    {
      hide Owned, TreeOn, Covered, HandedOver, BitmapSectors, FreeInode;
      InTree(disk.Disk(), nodes, x);
      if disk.inodes[x].nlink == 0 && !held {
        FreeIt(x);
      }
    }

    method FreeIt(x: nat)
      requires Backed() && x in nodes && x < |disk.inodes| && disk.inodes[x].nlink == 0
      modifies this`nodes, disk
      ensures Backed() && |disk.inodes| == |old(disk.inodes)| && nodes == old(nodes) - {x}
      ensures disk.logged <= old(disk.logged) + {IBlock(x)} + BitmapSectors(disk.sb)
    {
      hide Owned, TreeOn, Covered, HandedOver, BitmapSectors;
      ghost var v, l := disk.Disk(), disk.logged;
      var ip := new InodeRef(x, disk.inodes[x]);
      assert disk.Table(ip) == disk.inodes;
      var ok := disk.Itrunc(ip);
      assert disk.Table(ip) == disk.inodes;
      CoveredTwice(disk.sb, start, {}, v, l, disk.Disk(), disk.logged);
      ghost var v1, l1 := disk.Disk(), disk.logged;
      ip.d := ip.d.(typ := 0);
      disk.Iupdate(ip);
      CoveredTwice(disk.sb, start, {}, v1, l1, disk.Disk(), disk.logged);
      OwnedByAddrs(disk.sb, v1.inodes, disk.inodes, disk.bits, disk.data, disk.own);
      NodeFreed(disk.sb, v, nodes, x, disk.Disk(), disk.own);
      nodes := nodes - {x};
    }

    /** Since begin_trans, at v, everything that changed was handed to log_write, and little did. */
    ghost predicate Committed(v: Parts)
      reads this, disk
    {
      Backed() && start == v && Small(disk.sb, ROOTINO, disk.logged)
    }

    /** A panic: the transaction that began at v is not committed. */
    ghost predicate Abandoned(v: Parts)
      reads this, disk
    {
      Pending() && start == v && Small(disk.sb, ROOTINO, disk.logged)
    }

    /** ONE TRANSACTION takes the disk from the one tree to the other, or stops on the way there. */
    lemma IsLogged(v: Parts)
      requires Committed(v) || Abandoned(v)
      ensures Logs(disk.sb, ROOTINO, v, disk.Disk(), disk.calls, disk.logged)
    {
    }

    /** sys_link: ip was found by a path, dp is the parent of the new name, if any. A panic leaves the count raised,
        in memory only: the transaction is not committed. */
    method SysLink(ip: Option<nat>, dp: Option<nat>, name: Name) returns (r: Status, ghost at: nat)
      requires Valid()
      requires ip.Some? ==> ip.value in nodes && (IsDir(nodes, ip.value) || nodes[ip.value].nlink >= 1)
      requires dp.Some? ==> IsDir(nodes, dp.value)
      modifies this`nodes, this`start, disk
      ensures r.Failed? <==>
              ip.None? || IsDir(old(nodes), ip.value) || dp.None? || Present(old(nodes)[dp.value].entries, Short(name))
      ensures r.Ok? ==> !NoPlace(old(disk.Disk()), old(nodes)[dp.value].entries, dp.value, 0)
      ensures r.Panics? ==> NoPlace(old(disk.Disk()), old(nodes)[dp.value].entries, dp.value, 0)
      ensures r.Panics? ==> Abandoned(old(disk.Disk()))
      ensures !r.Panics? ==> Committed(old(disk.Disk()))
      ensures !r.Panics? ==> (Inv(nodes, slot) <==> r.Failed? || LinkedDir(old(nodes), dp.value))
      ensures r.Failed? ==> nodes == old(nodes)
      ensures r.Ok? ==> FirstFree(old(nodes)[dp.value].entries, at)
                        && nodes == Linked(old(nodes), dp.value, at, Short(name), ip.value)
    {
      hide Inv, Present, NoRoom, Settled, TreeOn, Covered, HandedOver, Small, BitmapSectors, EntrySectors, SlotsKept,
           Few, NoPlace;
      Begin();
      FewNone(disk.sb);
      if ip.None? {
        SmallNone(disk.sb, ROOTINO);
        return Failed, 0;
      }
      var x := ip.value;
      InTree(disk.Disk(), nodes, x);
      Counts(disk.sb, disk.Disk(), disk.own);
      if disk.inodes[x].typ == 1 {
        SmallNone(disk.sb, ROOTINO);
        return Failed, 0;
      }
      if dp.None? {
        AddLinks(x, 1);
        AddLinks(x, -1);
        assert nodes == old(nodes);
        FewSectors(disk.sb, x, x, {}, {}, disk.logged);
        return Failed, 0;
      }
      r, at := LinkIn(x, dp.value, name);
    }

    /** sys_link once both inodes are known. */
    method LinkIn(x: nat, d: nat, name: Name) returns (r: Status, ghost at: nat)
      requires Backed() && Inv(nodes, slot) && disk.logged == {}
      requires x in nodes && !IsDir(nodes, x) && IsDir(nodes, d)
      modifies this`nodes, disk
      ensures r.Failed? <==> Present(old(nodes)[d].entries, Short(name))
      ensures r.Ok? ==> !NoPlace(old(disk.Disk()), old(nodes)[d].entries, d, 0)
      ensures r.Panics? ==> NoPlace(old(disk.Disk()), old(nodes)[d].entries, d, 0)
      ensures (!r.Panics? ==> Backed()) && Pending() && Small(disk.sb, ROOTINO, disk.logged)
      ensures r.Failed? ==> nodes == old(nodes)
      ensures r.Ok? ==> FirstFree(old(nodes)[d].entries, at) && nodes == Linked(old(nodes), d, at, Short(name), x)
      ensures r.Ok? ==> (Inv(nodes, slot) <==> LinkedDir(old(nodes), d))
    {
      hide Inv, Present, NoRoom, Settled, TreeOn, Covered, HandedOver, Small, BitmapSectors, EntrySectors, SlotsKept,
           Few, EntryNeeds, FreeCount, OtherSlots, Addr;
      FewNone(disk.sb);
      InTree(disk.Disk(), nodes, x);
      InTree(disk.Disk(), nodes, d);
      Counts(disk.sb, disk.Disk(), disk.own);
      ghost var v := disk.Disk();
      AddLinks(x, 1);
      NeedsByAddrs(v, disk.Disk(), d, Vacant(nodes[d].entries, 0));
      InTree(disk.Disk(), nodes, x);
      Counts(disk.sb, disk.Disk(), disk.own);
      var done;
      ghost var touched;
      done, touched := DirLink(d, name, x);
      FewSectors(disk.sb, x, d, touched, {}, disk.logged);
      if done.Full? {
        return Panics, 0;
      }
      if done.Entered? {
        LinkedInv(old(nodes), slot, d, done.off, Short(name), x);
        return Ok, done.off;
      }
      AddLinks(x, -1);
      assert nodes == old(nodes);
      FewSectors(disk.sb, x, x, {}, {}, disk.logged);
      return Failed, 0;
    }

    /** sys_unlink: dp is the parent of the name; held says whether the inode is open elsewhere. In a directory that
        was removed there is nothing left to unlink. It never panics. */
    method SysUnlink(dp: Option<nat>, name: Name, held: bool) returns (ok: bool, ghost at: nat)
      requires Valid()
      requires dp.Some? ==> IsDir(nodes, dp.value)
      modifies this`nodes, this`start, disk
      ensures Valid() && Committed(old(disk.Disk()))
      ensures !ok ==> nodes == old(nodes)
      ensures !ok <==> dp.None? || name == "." || name == ".." || Target(old(nodes), dp.value, name) == 0
                       || Busy(old(nodes), Target(old(nodes), dp.value, name))
      ensures ok ==> LinkedDir(old(nodes), dp.value) && Target(old(nodes), dp.value, name) in old(nodes)
      ensures ok ==> At(old(nodes), dp.value, name) == Some(at) && nodes == Removed(old(nodes), dp.value, at, held)
      ensures ok ==> LinkedDir(nodes, dp.value) && !Present(nodes[dp.value].entries, Short(name))
      ensures ok && IsDir(old(nodes), Target(old(nodes), dp.value, name)) && !held ==>
              Target(old(nodes), dp.value, name) !in nodes
    {
      hide Inv, Settled, TreeOn, Covered, HandedOver, Small, BitmapSectors, EntrySectors;
      Begin();
      SmallNone(disk.sb, ROOTINO);
      if dp.None? || name == "." || name == ".." {
        return false, 0;
      }
      var d := dp.value;
      var found := DirLookup(d, name);
      if found.None? {
        return false, 0;
      }
      var k := found.value;
      var e := ReadEntry(d, k);
      var x := e.inum;
      EntryFound(nodes, slot, d, k, Short(name));
      InTree(disk.Disk(), nodes, x);
      assert disk.inodes[x].nlink >= 1;
      if disk.inodes[x].typ == 1 {
        var empty := IsDirEmpty(x);
        if !empty {
          return false, 0;
        }
      }
      RemovedKeeps(nodes, slot, d, k, x, held, Short(name));
      Remove(d, k, x, held);
      return true, k;
    }

    /** The updates of sys_unlink. */
    method Remove(d: nat, k: nat, x: nat, held: bool)
      requires Backed() && disk.logged == {} && IsDir(nodes, d) && k < |nodes[d].entries|
      requires x == nodes[d].entries[k].inum && x in nodes && x != d
      modifies this`nodes, disk
      ensures Backed() && nodes == Removed(old(nodes), d, k, held) && Small(disk.sb, ROOTINO, disk.logged)
    {
      hide Settled, TreeOn, Covered, HandedOver, Small, BitmapSectors, EntrySectors, SlotsKept, Few;
      FewNone(disk.sb);
      InTree(disk.Disk(), nodes, d);
      InTree(disk.Disk(), nodes, x);
      Counts(disk.sb, disk.Disk(), disk.own);
      var ok;
      ghost var touched;
      FreeIsZero();
      var zeros: seq<byte> := seq(DIRENT, _ => 0);
      ok, touched := WriteEntry(d, k, FREE, zeros);
      InTree(disk.Disk(), nodes, x);
      if disk.inodes[x].typ == 1 {
        AddLinks(d, -1);
      }
      AddLinks(x, -1);
      assert nodes == if IsDir(old(nodes), x) then Detached(old(nodes), d, k, x) else Unlinked(old(nodes), d, k);
      Iput(x, held);
      FewSectors(disk.sb, d, x, touched, {}, disk.logged);
    }

    /** The two entries of a new directory; neither can be refused. Fails only by the panic "balloc: out of blocks",
        exactly when none is free: both are in one block. */
    method MakeDots(x: nat, parent: nat) returns (ok: bool, ghost touched: set<nat>)
      requires Backed() && x != 0 && IsDir(nodes, x) && nodes[x].entries == [] && parent < |disk.inodes|
      requires x < |disk.inodes| && disk.inodes[x].addrs == seq(13, _ => 0)
      modifies this`nodes, disk
      ensures (ok ==> Backed()) && Pending() && |disk.inodes| == |old(disk.inodes)|
      ensures ok ==> nodes == old(nodes)[x := old(nodes)[x].(entries := [Dirent(x, "."), Dirent(parent, "..")])]
      ensures Few(disk.sb, touched) && disk.logged <= old(disk.logged) + {IBlock(x)} + BitmapSectors(disk.sb) + touched
      ensures ok ==> OtherSlots(disk.inodes, x, old(disk.data), disk.data)
      ensures ok ==> forall j :: 0 <= j < |disk.inodes| && j != x ==> disk.inodes[j] == old(disk.inodes)[j]
      ensures ok <==> FreeCount(old(disk.bits)) > 0
      ensures ok ==> FreeCount(old(disk.bits)) == FreeCount(disk.bits) + 1
    {
      hide Settled, TreeOn, Covered, HandedOver, BitmapSectors, EntrySectors, SlotsKept, Few, EntryNeeds, FreeCount,
           OtherSlots, Addr, Present, NoRoom, FirstFree, Vacant, Put, Short;
      InTree(disk.Disk(), nodes, x);
      FirstDot(Dirent(x, "."));
      SecondDot(x, Dirent(parent, ".."));
      DotNeeds(disk.Disk(), x);
      var dot;
      dot, touched := DirLink(x, ".", x);
      if dot.Full? {
        return false, touched;
      }
      assert dot.Entered? && nodes[x].entries == [Dirent(x, ".")];
      ghost var v, own := disk.Disk(), disk.own;
      InTree(v, nodes, x);
      DotNeeds(disk.Disk(), x);
      var dotdot;
      dotdot, touched := DirLink(x, "..", parent);
      assert dotdot.Entered? && nodes[x].entries == [Dirent(x, "."), Dirent(parent, "..")];
      DotsSectors(disk.sb, v, own, x, disk.inodes[x], disk.data);
      OtherSlotsSame(v.inodes, disk.inodes, x, old(disk.data), v.data);
      OtherSlotsTwice(disk.inodes, x, old(disk.data), v.data, disk.data);
      ok := true;
    }

    /** The root directory, as mkfs makes it on a disk without inodes. */
    method MakeRoot() returns (ok: bool)
      requires Backed() && nodes == map[] && slot == map[] && |disk.inodes| > ROOTINO
      modifies this`nodes, disk
      ensures ok ==> Valid() && nodes == Mkfs()
      ensures ok <==> FreeCount(old(disk.bits)) > 0
    {
      hide Settled, TreeOn, Covered, HandedOver, BitmapSectors, Few, FreeCount, OtherSlots;
      var root := Ialloc(T_DIR);
      assert ROOTINO !in old(nodes);
      assert root == Some(ROOTINO);
      AddLinks(ROOTINO, 1);
      ghost var touched;
      InTree(disk.Disk(), nodes, ROOTINO);
      ok, touched := MakeDots(ROOTINO, ROOTINO);
      RootRefs(Mkfs());
      assert ok ==> nodes == Mkfs();
    }

    /** create, the transaction of open, mkdir and mknod: makes the file, device or directory, or finds the file that
        is there already. It panics when the name stands for an inode that was freed, when no inode is free, when
        the directory is full and when no block is left. */
    method Create(dp: Option<nat>, name: Name, kind: Kind, major: int, minor: int) returns (r: Creation)
      requires Valid() && IsShort(major) && IsShort(minor)
      requires dp.Some? ==> IsDir(nodes, dp.value)
      modifies this`nodes, this`slot, this`start, disk
      ensures r.Refused? || r.Existing? ==> nodes == old(nodes) && slot == old(slot)
      ensures r.Existing? <==> dp.Some? && kind.T_FILE? && IsFile(old(nodes), Target(old(nodes), dp.value, name))
      ensures r.Existing? ==> r.inum == Target(old(nodes), dp.value, name) && 1 <= r.inum < disk.sb.ninodes
      ensures r.Panic? <==> dp.Some? && CannotCreate(old(nodes), old(disk.Disk()), dp.value, name, kind)
      ensures r.Panic? ==> Abandoned(old(disk.Disk()))
      ensures r.Created? ==> dp.Some? && Target(old(nodes), dp.value, name) == 0
      ensures r.Created? ==> 1 <= r.inum < disk.sb.ninodes && r.inum !in old(nodes) && forall i :: 1 <= i < r.inum ==>
              i in old(nodes)
      ensures r.Created? ==> FirstFree(old(nodes)[dp.value].entries, r.at)
                             && nodes == Dirs.Grown(old(nodes), dp.value, r.at, Short(name), r.inum, kind)
      ensures !r.Panic? ==> Committed(old(disk.Disk()))
                            && (Inv(nodes, slot) <==> !r.Created? || LinkedDir(old(nodes), dp.value))
    {
      hide Inv, NoRoom, Settled, TreeOn, Covered, HandedOver, Small, NoPlace;
      assert 0 !in nodes by { NoInodeZero(nodes, slot); }
      Begin();
      SmallNone(disk.sb, ROOTINO);
      Counts(disk.sb, disk.Disk(), disk.own);
      if dp.None? {
        return Refused;
      }
      var d := dp.value;
      var found := DirLookup(d, name);
      if found.Some? {
        var e := ReadEntry(d, found.value);
        InTree(disk.Disk(), nodes, d);
        Counts(disk.sb, disk.Disk(), disk.own);
        Allocated(disk.Disk(), nodes, e.inum);
        if disk.inodes[e.inum].typ == 0 {
          return Panic;
        }
        InTree(disk.Disk(), nodes, e.inum);
        return if kind.T_FILE? && disk.inodes[e.inum].typ == 2 then Existing(e.inum) else Refused;
      }
      r := Make(d, name, kind, major, minor);
    }

    /** The part of create that makes something. */
    method Make(d: nat, name: Name, kind: Kind, major: int, minor: int) returns (r: Creation)
      requires Valid() && IsDir(nodes, d) && !Present(nodes[d].entries, Short(name)) && disk.logged == {}
      requires IsShort(major) && IsShort(minor)
      modifies this`nodes, this`slot, disk
      ensures r.Created? || r.Panic?
      ensures r.Panic? <==> NoInode(old(nodes), disk.sb.ninodes)
                            || NoPlace(old(disk.Disk()), old(nodes)[d].entries, d, if kind.T_DIR? then 1 else 0)
      ensures r.Panic? ==> Pending() && Small(disk.sb, ROOTINO, disk.logged)
      ensures r.Created? ==> 1 <= r.inum < disk.sb.ninodes && r.inum !in old(nodes) && forall i :: 1 <= i < r.inum ==>
              i in old(nodes)
      ensures r.Created? ==> FirstFree(old(nodes)[d].entries, r.at)
                             && nodes == Dirs.Grown(old(nodes), d, r.at, Short(name), r.inum, kind)
      ensures r.Created? ==> Backed() && Small(disk.sb, ROOTINO, disk.logged)
                             && (Inv(nodes, slot) <==> LinkedDir(old(nodes), d))
    {
      hide Inv, NoRoom, Present, Settled, TreeOn, Covered, HandedOver, Small, BitmapSectors, EntrySectors, SlotsKept,
           Few, EntryNeeds, FreeCount;
      Counts(disk.sb, disk.Disk(), disk.own);
      SmallNone(disk.sb, ROOTINO);
      InTree(disk.Disk(), nodes, d);
      ghost var v := disk.Disk();
      var free := Ialloc(kind);
      if free.None? {
        return Panic;
      }
      var x := free.value;
      NeedsByAddrs(v, disk.Disk(), d, Vacant(nodes[d].entries, 0));
      ghost var next := nodes;
      AllocKeeps(old(nodes), slot, x, kind);
      var ok, off;
      ok, off := Attach(d, x, name, kind, major, minor);
      if !ok {
        return Panic;
      }
      assert nodes == Dirs.Grown(old(nodes), d, off, Short(name), x, kind);
      CreatedKeeps(next, slot, d, off, Short(name), x);
      if kind.T_DIR? && LinkedDir(next, d) {
        slot := slot[x := Place(off, Depth(slot, d) + 1)];
      }
      return Created(x, off);
    }

    /** The new inode x is set up and named in directory d. */
    method Attach(d: nat, x: nat, name: Name, kind: Kind, major: int, minor: int) returns (ok: bool, off: nat)
      requires Backed() && IsDir(nodes, d) && !Present(nodes[d].entries, Short(name)) && disk.logged <= {IBlock(x)}
      requires x in nodes && x != d && x != 0 && nodes[x] == Node(kind, 0, []) && IsShort(major) && IsShort(minor)
      requires x < |disk.inodes| && disk.inodes[x].addrs == seq(13, _ => 0)
      modifies this`nodes, disk
      ensures (ok ==> Backed()) && Pending() && Small(disk.sb, ROOTINO, disk.logged)
      ensures ok ==> FirstFree(old(nodes)[d].entries, off)
      ensures ok ==> nodes == if kind.T_DIR? then Attached(old(nodes), d, off, Short(name), x)
                              else Linked(old(nodes), d, off, Short(name), x)
      ensures !ok <==> NoPlace(old(disk.Disk()), old(nodes)[d].entries, d, if kind.T_DIR? then 1 else 0)
    {
      hide NoRoom, Present, Settled, TreeOn, Covered, HandedOver, Small, BitmapSectors, EntrySectors, SlotsKept, Few,
           EntryNeeds, FreeCount, OtherSlots, Addr;
      ghost var v := disk.Disk();
      ghost var at := Vacant(nodes[d].entries, 0);
      FewNone(disk.sb);
      InTree(disk.Disk(), nodes, x);
      InTree(disk.Disk(), nodes, d);
      Counts(disk.sb, disk.Disk(), disk.own);
      off := 0;
      Update(x, disk.inodes[x].(major := major, minor := minor, nlink := 1));
      ghost var dots: set<nat> := {};
      if kind.T_DIR? {
        AddLinks(d, 1);
        InTree(disk.Disk(), nodes, d);
        ghost var w := disk.Disk();
        NeedsByAddrs(v, w, d, at);
        ok, dots := MakeDots(x, d);
        if !ok {
          FewSectors(disk.sb, x, d, dots, {}, disk.logged);
          return;
        }
        NeedsOther(w, disk.Disk(), x, d, at);
      } else {
        NeedsByAddrs(v, disk.Disk(), d, at);
      }
      InTree(disk.Disk(), nodes, x);
      Counts(disk.sb, disk.Disk(), disk.own);
      var done;
      ghost var touched;
      done, touched := DirLink(d, name, x);
      FewSectors(disk.sb, x, d, dots, touched, disk.logged);
      if done.Full? {
        return false, 0;
      }
      assert done.Entered?;
      off := done.off;
      ok := true;
    }
  }

  ghost predicate NoInode(fs: Nodes, ninodes: nat) { forall i :: 1 <= i < ninodes ==> i in fs }

  /** create panics: the name stands for an inode that was freed; or it is new, and no inode is free, or no place
      for the entry and, in a directory, the dots. */
  ghost predicate CannotCreate(fs: Nodes, v: Parts, d: nat, name: Name, kind: Kind)
    requires d in fs
  {
    if Target(fs, d, name) != 0 then Target(fs, d, name) !in fs
    else NoInode(fs, |v.inodes|) || NoPlace(v, fs[d].entries, d, if kind.T_DIR? then 1 else 0)
  }

  /** The first entry of an empty directory. */
  lemma FirstDot(e: Dirent)
    ensures !Present([], Short(".")) && Vacant([], 0) == 0 && !NoRoom([]) && Put([], 0, e) == [e] && Short(".") == "."
  {
  }

  /** The second. */
  lemma SecondDot(x: nat, e: Dirent)
    requires x != 0
    ensures var es := [Dirent(x, ".")];
            && !Present(es, Short("..")) && Vacant(es, 0) == 1 && !NoRoom(es) && Put(es, 1, e) == [Dirent(x, "."), e]
            && Short("..") == ".."
  {
    VacantIs([Dirent(x, ".")], 0, 1);
  }

  lemma FewNone(sb: Super)
    ensures Few(sb, {})
  {
  }

  lemma Counts(sb: Super, v: Parts, own: map<nat, (nat, nat)>)
    requires Settled(sb, v, own)
    ensures |v.inodes| == sb.ninodes
  {
  }

  lemma Allocated(v: Parts, fs: Nodes, i: nat)
    requires TreeOn(v, fs) && i < |v.inodes|
    ensures v.inodes[i].typ == 0 <==> i !in fs
  {
    assert NodeOn(v, fs, i);
  }

  lemma FindHere(es: seq<Dirent>, name: string, from: nat)
    requires from <= |es|
    ensures Find(es, name, from) ==
            if from == |es| then None
            else if es[from].inum != 0 && es[from].name == name then Some(from)
            else Find(es, name, from + 1)
  {
  }
}
