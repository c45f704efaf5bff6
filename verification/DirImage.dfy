/** Directories as bytes: a directory's file is an array of 16-byte struct dirent (xv6/fs.h), and a disk
    whose inodes and directory files say so holds one tree. */
module DirImage {
  import opened Blocks
  import opened FsState
  import opened FsImage
  import opened Dirs

  const DIRENT := 16
  const PER_BLOCK := 32        // BSIZE / DIRENT

  // ---------- one entry ----------

  function NameByte(name: string, i: nat): byte {
    if i < |name| && name[i] as int < 256 then name[i] as int else 0
  }

  /** struct dirent: a little-endian ushort and the name, filled up with zeros (strncpy). */
  function DirentBytes(e: Dirent): (b: seq<byte>)
    ensures |b| == DIRENT
  {
    [e.inum % 256, e.inum / 256 % 256] + seq(DIRSIZ, i requires 0 <= i < DIRSIZ => NameByte(e.name, i))
  }

  /** The characters from i on, up to a zero or the end. */
  function NameAt(b: seq<byte>, i: nat): string
    requires |b| == DIRENT && i <= DIRSIZ
    decreases DIRSIZ - i
  {
    if i == DIRSIZ || b[2 + i] == 0 then "" else [b[2 + i] as int as char] + NameAt(b, i + 1)
  }

  function DirentOf(b: seq<byte>): Dirent
    requires |b| == DIRENT
  {
    Dirent(b[0] as int + 256 * (b[1] as int), NameAt(b, 0))
  }

  predicate FitsEntry(e: Dirent) { e.inum < 0x1_0000 && |e.name| <= DIRSIZ && IsName(e.name) }

  lemma {:induction false} NameRoundTrip(e: Dirent, i: nat)
    requires FitsEntry(e) && i <= |e.name|
    ensures NameAt(DirentBytes(e), i) == e.name[i..]
    decreases |e.name| - i
  {
    if i < |e.name| {
      NameRoundTrip(e, i + 1);
      assert DirentBytes(e)[2 + i] == NameByte(e.name, i);
    }
  }

  /** ROUND TRIP of a directory entry. */
  lemma DirentRoundTrip(e: Dirent)
    requires FitsEntry(e)
    ensures DirentOf(DirentBytes(e)) == e
  {
    NameRoundTrip(e, 0);
    assert e.inum == e.inum % 256 + 256 * (e.inum / 256 % 256);
  }

  /** Clearing an entry writes zeros (memset). */
  lemma FreeIsZero()
    ensures DirentBytes(FREE) == seq<byte>(DIRENT, _ => 0)
  {
  }

  // ---------- a directory ----------

  /** The contents of a directory's file. */
  function DirBytes(es: seq<Dirent>): (c: seq<byte>)
    ensures |c| == DIRENT * |es|
  {
    seq(DIRENT * |es|, j requires 0 <= j < DIRENT * |es| => DirentBytes(es[j / DIRENT])[j % DIRENT])
  }

  lemma EntryBytes(es: seq<Dirent>, k: nat, off: nat)
    requires k < |es| && off == DIRENT * k
    ensures off + DIRENT <= |DirBytes(es)| && DirBytes(es)[off..off + DIRENT] == DirentBytes(es[k])
  {
    forall j | 0 <= j < DIRENT ensures DirBytes(es)[off + j] == DirentBytes(es[k])[j] {
      assert (off + j) / DIRENT == k && (off + j) % DIRENT == j;
    }
  }

  /** WRITING ONE ENTRY'S BYTES at its offset is putting the entry, at the end as well. */
  lemma PutBytes(es: seq<Dirent>, k: nat, e: Dirent, off: nat)
    requires k <= |es| && off == DIRENT * k
    ensures Splice(DirBytes(es), off, DirentBytes(e)) == DirBytes(Put(es, k, e))
  {
    var c, b, es' := DirBytes(es), DirentBytes(e), Put(es, k, e);
    SpliceAt(c, off, b, 0);
    forall j: nat | j < DIRENT * |es'| ensures Splice(c, off, b)[j] == DirBytes(es')[j] {
      SpliceAt(c, off, b, j);
      hide Splice, DirentBytes;
      var n, m := j / DIRENT, j % DIRENT;
      assert j == DIRENT * n + m;
      assert off <= j < off + DIRENT <==> n == k;
    }
  }

  /** The bytes determine the entries. */
  lemma EntriesDetermined(es: seq<Dirent>, es': seq<Dirent>, n: nat)
    requires FitsDir(es, n) && FitsDir(es', n) && n <= 0x1_0000 && DirBytes(es) == DirBytes(es')
    ensures es == es'
  {
    assert |es| == |es'|;
    forall k: nat | k < |es| ensures es[k] == es'[k] {
      EntryBytes(es, k, DIRENT * k);
      EntryBytes(es', k, DIRENT * k);
      hide DirBytes, DirentBytes, DirentOf;
      DirentRoundTrip(es[k]);
      DirentRoundTrip(es'[k]);
    }
  }

  // ---------- the tree on a disk ----------

  /** T_DIR, T_FILE and T_DEV of xv6/stat.h. */
  function Code(kind: Kind): (c: int)
    ensures 0 < c < 4
  {
    match kind case T_DIR => 1 case T_FILE => 2 case T_DEV => 3
  }

  /** A dinode that ialloc may take: it holds nothing. */
  predicate FreeInode(d: Inode) { d.typ == 0 && d.nlink == 0 && d.size == 0 && d.addrs == seq(13, _ => 0) }

  /** Inode i of the disk is what the tree says: free, or of that kind with that many links, and a directory's
      file holds its entries. */
  ghost predicate NodeOn(v: Parts, fs: Nodes, i: nat)
    requires i < |v.inodes|
  {
    var d := v.inodes[i];
    if i !in fs then FreeInode(d)
    else
      && d.typ == Code(fs[i].kind) && d.nlink == fs[i].nlink && d.size <= MAXFILE * BSIZE
      && FitsDir(fs[i].entries, |v.inodes|)
      && if fs[i].kind.T_DIR? then Contents(d, v.data) == DirBytes(fs[i].entries) else fs[i].entries == []
  }

  ghost predicate TreeOn(v: Parts, fs: Nodes) {
    (forall i :: i in fs ==> i < |v.inodes|) && forall i: nat :: i < |v.inodes| ==> NodeOn(v, fs, i)
  }

  /** A DISK HOLDS AT MOST ONE TREE. */
  lemma TreeDetermined(v: Parts, fs: Nodes, fs': Nodes)
    requires TreeOn(v, fs) && TreeOn(v, fs') && |v.inodes| <= 0x1_0000
    ensures fs == fs'
  {
    forall i: nat | i < |v.inodes| ensures (i in fs <==> i in fs') && (i in fs && i in fs' ==> fs[i] == fs'[i]) {
      assert NodeOn(v, fs, i) && NodeOn(v, fs', i);
      if i in fs && i in fs' && fs[i].kind.T_DIR? {
        hide DirBytes, FitsDir;
        EntriesDetermined(fs[i].entries, fs'[i].entries, |v.inodes|);
      }
    }
  }

  // ---------- how the tree moves with the disk ----------

  /** Inodes and blocks are in order, every inode by its disk copy. */
  ghost predicate Settled(sb: Super, v: Parts, own: map<nat, (nat, nat)>) {
    && |v.inodes| == sb.ninodes <= 0x1_0000 && Owned(sb, v.inodes, v.bits, v.data, own)
    && (forall j :: 0 <= j < |v.inodes| ==> Mapped(v.inodes[j], v.data, v.inodes[j].size))
    && (forall j :: 0 <= j < |v.inodes| ==> IsShort(v.inodes[j].major) && IsShort(v.inodes[j].minor))
  }

  /** Link counts that their short can hold. */
  ghost predicate LinksFit(fs: Nodes) { forall x :: x in fs ==> 0 <= fs[x].nlink < 0x8000 }

  /** Then all fields are in range of their widths. */
  lemma SettledSized(sb: Super, v: Parts, own: map<nat, (nat, nat)>, fs: Nodes)
    requires Settled(sb, v, own) && TreeOn(v, fs) && LinksFit(fs)
    ensures Sized(sb, v)
  {
    OwnedSizes(sb, v.inodes, v.bits, v.data, own);
    forall i: nat | i < |v.inodes| ensures InodeFits(v.inodes[i]) {
      assert NodeOn(v, fs, i);
      var d := v.inodes[i];
      forall k: nat | k < 13 ensures d.addrs[k] < UINT_LIMIT {
        assert Addr(d, v.data, k) == d.addrs[k];
        if d.addrs[k] != 0 {
          SlotInRange(sb, v.inodes, v.bits, v.data, own, i, k);
        }
      }
    }
  }

  /** Links or device numbers of inode x change. */
  lemma NodeUpdated(sb: Super, v: Parts, own: map<nat, (nat, nat)>, fs: Nodes, x: nat, d: Inode, w: Parts)
    requires Settled(sb, v, own) && TreeOn(v, fs) && x in fs && w == v.(inodes := v.inodes[x := d])
    requires d == v.inodes[x].(major := d.major, minor := d.minor, nlink := d.nlink)
    requires IsShort(d.major) && IsShort(d.minor)
    ensures Settled(sb, w, own) && TreeOn(w, fs[x := fs[x].(nlink := d.nlink)])
  {
    OwnedByAddrs(sb, v.inodes, w.inodes, v.bits, v.data, own);
    BytesByAddrs(v.inodes[x], d, v.data, d.size);
    hide Owned, Bytes, Addr, DirBytes, FitsDir, FreeInode;
    var fs' := fs[x := fs[x].(nlink := d.nlink)];
    forall i: nat | i < |w.inodes| ensures NodeOn(w, fs', i) {
      assert NodeOn(v, fs, i);
    }
  }

  /** Directory x gets new bytes, and every other file keeps its own. */
  lemma NodeWritten(sb: Super, v: Parts, fs: Nodes, x: nat, es: seq<Dirent>, w: Parts, own': map<nat, (nat, nat)>)
    requires TreeOn(v, fs) && Settled(sb, w, own') && IsDir(fs, x) && |w.inodes| == |v.inodes|
             && FitsDir(es, |v.inodes|)
    requires forall j :: 0 <= j < |v.inodes| && j != x ==>
               v.inodes[j].size <= MAXFILE * BSIZE && w.inodes[j] == v.inodes[j]
               && Contents(v.inodes[j], w.data) == Contents(v.inodes[j], v.data)
    requires w.inodes[x] == v.inodes[x].(size := w.inodes[x].size, addrs := w.inodes[x].addrs)
    requires w.inodes[x].size <= MAXFILE * BSIZE && Contents(w.inodes[x], w.data) == DirBytes(es)
    ensures TreeOn(w, fs[x := fs[x].(entries := es)])
  {
    hide Owned, Bytes, Addr, DirBytes, FitsDir, FreeInode;
    var fs' := fs[x := fs[x].(entries := es)];
    forall i: nat | i < |w.inodes| ensures NodeOn(w, fs', i) {
      assert NodeOn(v, fs, i);
    }
  }

  /** Inode x is free again. */
  lemma NodeFreed(sb: Super, v: Parts, fs: Nodes, x: nat, w: Parts, own': map<nat, (nat, nat)>)
    requires TreeOn(v, fs) && Settled(sb, w, own') && x in fs && |w.inodes| == |v.inodes| && w.data == v.data
    requires FreeInode(w.inodes[x]) && forall j :: 0 <= j < |v.inodes| && j != x ==> w.inodes[j] == v.inodes[j]
    ensures TreeOn(w, fs - {x})
  {
    hide Owned, Bytes, Addr, DirBytes, FitsDir, FreeInode;
    var fs' := fs - {x};
    forall i: nat | i < |w.inodes| ensures NodeOn(w, fs', i) {
      assert NodeOn(v, fs, i);
    }
  }

  /** What ialloc stores. */
  function NewInode(kind: Kind): Inode { Inode(Code(kind), 0, 0, 0, 0, seq(13, _ => 0)) }

  /** Inode x is taken; it holds no block yet. */
  lemma NodeMade(sb: Super, v: Parts, own: map<nat, (nat, nat)>, fs: Nodes, x: nat, kind: Kind, w: Parts)
    requires Settled(sb, v, own) && TreeOn(v, fs) && x < |v.inodes| && x !in fs
             && w == v.(inodes := v.inodes[x := NewInode(kind)])
    ensures Settled(sb, w, own) && TreeOn(w, fs[x := Node(kind, 0, [])])
  {
    assert NodeOn(v, fs, x);
    OwnedByAddrs(sb, v.inodes, w.inodes, v.bits, v.data, own);
    assert Contents(NewInode(kind), v.data) == DirBytes([]);
    hide Owned, Bytes, Addr, DirBytes, FreeInode;
    var fs' := fs[x := Node(kind, 0, [])];
    forall i: nat | i < |w.inodes| ensures NodeOn(w, fs', i) {
      assert NodeOn(v, fs, i);
    }
  }

  /** A disk without inodes: the reserved sectors are in use, and nothing else. */
  lemma EmptyDisk(sb: Super, v: Parts)
    requires sb.size <= UINT_LIMIT && sb.ninodes <= 0x1_0000
    requires v
             == Parts(seq(sb.size, b requires 0 <= b => Meta(sb, b)),
                      seq(sb.ninodes, _ => Inode(0, 0, 0, 0, 0, seq(13, _ => 0))),
                        seq(sb.size, _ => ZeroBlock()))
    ensures Settled(sb, v, map[]) && TreeOn(v, map[])
  {
    assert forall i: nat, t: nat :: i < |v.inodes| && t < NSLOT ==> Addr(v.inodes[i], v.data, t) == 0;
  }
}
