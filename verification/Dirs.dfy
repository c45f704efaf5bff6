/** Directories and link counts as values: the tree of inodes and entries that dirlink of xv6/fs.c and the
    link, unlink and create transactions of xv6/sysfile.c move, and the invariant they keep. */
module Dirs {
  import opened Prelude

  const ROOTINO := 1
  const DIRSIZ := 14
  const MAXENTRIES := 4480     // MAXFILE * BSIZE / sizeof(struct dirent)

  datatype Kind = T_DIR | T_FILE | T_DEV

  /** struct dirent; inum 0 marks a free entry. */
  datatype Dirent = Dirent(inum: nat, name: string)

  const FREE := Dirent(0, "")

  /** A C string: no byte of it is 0. */
  predicate IsName(s: string) { forall i :: 0 <= i < |s| ==> 0 < s[i] as int < 256 }

  type Name = s: string | IsName(s)

  /** Names are compared and stored by their first DIRSIZ characters (namecmp, strncpy). */
  function Short(name: string): (short: string)
    ensures |short| <= DIRSIZ && short <= name && (|name| <= DIRSIZ ==> short == name)
  {
    if |name| <= DIRSIZ then name else name[..DIRSIZ]
  }

  /** An allocated inode; only directories have entries. */
  datatype Node = Node(kind: Kind, nlink: int, entries: seq<Dirent>)

  type Nodes = map<nat, Node>

  /** Where a directory is held: the entry of its parent, and how far below the root. */
  datatype Place = Place(at: nat, depth: nat)

  type Places = map<nat, Place>

  function Depth(slot: Places, d: nat): nat { if d in slot then slot[d].depth else 0 }

  // ---------- references and the invariant ----------

  predicate IsDir(fs: Nodes, x: nat) { x in fs && fs[x].kind.T_DIR? }

  /** A directory that is still linked somewhere. */
  predicate LinkedDir(fs: Nodes, d: nat) { IsDir(fs, d) && fs[d].nlink > 0 }

  /** The inode that entry k of the linked directory d names, 0 for none. */
  function Ent(fs: Nodes, d: nat, k: nat): nat {
    if LinkedDir(fs, d) && k < |fs[d].entries| then fs[d].entries[k].inum else 0
  }

  /** The entries, "." aside, that name x in linked directories. */
  ghost function Refs(fs: Nodes, x: nat): set<(nat, nat)> {
    set d, k | d in fs && 0 <= k < |fs[d].entries| && LinkedDir(fs, d)
               && fs[d].entries[k].inum == x && fs[d].entries[k].name != "." :: (d, k)
  }

  ghost predicate UniqueNames(es: seq<Dirent>) {
    forall i, j :: 0 <= i < j < |es| && es[i].inum != 0 && es[j].inum != 0 ==> es[i].name != es[j].name
  }

  /** "." and ".." come first, and names in use are distinct. */
  ghost predicate Dotted(es: seq<Dirent>, d: nat) {
    |es| >= 2 && es[0] == Dirent(d, ".") && es[1].name == ".." && es[1].inum != 0 && UniqueNames(es)
  }

  /** Directory d hangs under the directory its ".." names, at entry slot[d].at, one level deeper. */
  ghost predicate Hangs(fs: Nodes, slot: Places, d: nat) {
    && LinkedDir(fs, Ent(fs, d, 1))
    && (d == ROOTINO ==> Ent(fs, d, 1) == ROOTINO)
    && (d != ROOTINO ==> d in slot && slot[d].at >= 2 && Ent(fs, Ent(fs, d, 1), slot[d].at) == d
                         && Depth(slot, Ent(fs, d, 1)) < slot[d].depth)
  }

  /** Entry k of d names an allocated inode; a directory named there hangs exactly there. */
  ghost predicate Names(fs: Nodes, slot: Places, d: nat, k: nat) {
    var x := Ent(fs, d, k);
    && x in fs
    && (k >= 2 && IsDir(fs, x) ==> x != ROOTINO && LinkedDir(fs, x) && Ent(fs, x, 1) == d && x in slot
                                   && slot[x].at == k)
  }

  predicate EmptyDir(es: seq<Dirent>) {
    forall k :: 2 <= k < |es| ==> es[k].inum == 0
  }

  /** A directory that is not linked has just been allocated, or was removed: then only its dots are left, and its
      parent is another directory. */
  predicate Orphan(es: seq<Dirent>, d: nat) {
    es == [] || (|es| >= 2 && es[0] == Dirent(d, ".") && es[1].name == ".." && es[1].inum !in {0, d} && EmptyDir(es))
  }

  ghost predicate Tree(fs: Nodes, slot: Places) {
    && 0 !in fs && LinkedDir(fs, ROOTINO)
    && (forall d {:trigger Hangs(fs, slot, d)} :: LinkedDir(fs, d) ==> Dotted(fs[d].entries, d) && Hangs(fs, slot, d))
    && (forall d: nat :: IsDir(fs, d) && !LinkedDir(fs, d) ==> Orphan(fs[d].entries, d))
    && (forall d, k {:trigger Names(fs, slot, d, k)} :: Ent(fs, d, k) != 0 ==> Names(fs, slot, d, k))
  }

  /** Every link count is the number of entries, "." aside, that name the inode. */
  ghost predicate Counted(fs: Nodes) {
    forall x {:trigger Refs(fs, x)} :: x in fs ==> fs[x].nlink == |Refs(fs, x)|
  }

  ghost predicate Inv(fs: Nodes, slot: Places) { Tree(fs, slot) && Counted(fs) }

  /** In a dotted tree only entry 0 is called ".". */
  lemma RefsMeans(fs: Nodes, slot: Places, x: nat)
    requires Tree(fs, slot) && x != 0
    ensures forall d: nat, k: nat :: (d, k) in Refs(fs, x) <==> k >= 1 && Ent(fs, d, k) == x
  {
    forall d: nat, k: nat ensures (d, k) in Refs(fs, x) <==> k >= 1 && Ent(fs, d, k) == x {
      if LinkedDir(fs, d) {
        assert Hangs(fs, slot, d);
      }
    }
  }

  /** How a count moves with the entries. */
  lemma Recount(fs: Nodes, slot: Places, fs': Nodes, slot': Places, x: nat,
                gone: set<(nat, nat)>, come: set<(nat, nat)>)
    requires Tree(fs, slot) && Tree(fs', slot') && x != 0
    requires gone <= Refs(fs, x) && come !! Refs(fs, x)
    requires forall d: nat, k: nat :: k >= 1 ==>
               (Ent(fs', d, k) == x <==> (Ent(fs, d, k) == x && (d, k) !in gone) || (d, k) in come)
    requires forall d: nat, k: nat :: (d, k) in come ==> k >= 1
    ensures |Refs(fs', x)| == |Refs(fs, x)| - |gone| + |come|
  {
    RefsMeans(fs, slot, x);
    RefsMeans(fs', slot', x);
    hide Tree, Ent, Refs;
    var next := (Refs(fs, x) - gone) + come;
    forall p: (nat, nat) ensures p in Refs(fs', x) <==> p in next {
      var (d, k) := p;
    }
    assert Refs(fs', x) == next;
  }

  /** A named inode has a positive link count. */
  lemma NamedIsLinked(fs: Nodes, slot: Places, d: nat, k: nat)
    requires Inv(fs, slot) && k >= 1 && Ent(fs, d, k) != 0
    ensures Ent(fs, d, k) in fs && fs[Ent(fs, d, k)].nlink >= 1
  {
    assert Names(fs, slot, d, k);
    RefsMeans(fs, slot, Ent(fs, d, k));
    assert (d, k) in Refs(fs, Ent(fs, d, k));
  }

  /** The directory n ".." steps above d. */
  function Up(fs: Nodes, d: nat, n: nat): nat
    decreases n
  {
    if n == 0 then d else Up(fs, Ent(fs, d, 1), n - 1)
  }

  /** EVERY LINKED DIRECTORY REACHES THE ROOT by following "..". */
  lemma {:induction false} ReachesRoot(fs: Nodes, slot: Places, d: nat)
    requires Tree(fs, slot) && LinkedDir(fs, d)
    ensures exists n: nat :: Up(fs, d, n) == ROOTINO
    decreases Depth(slot, d)
  {
    if d == ROOTINO {
      assert Up(fs, d, 0) == ROOTINO;
    } else {
      assert Hangs(fs, slot, d);
      ReachesRoot(fs, slot, Ent(fs, d, 1));
      var m: nat :| Up(fs, Ent(fs, d, 1), m) == ROOTINO;
      assert Up(fs, d, m + 1) == ROOTINO;
    }
  }

  /** AN EMPTY DIRECTORY HAS ONE LINK: its only reference is the entry that names it, so unlinking
      it brings its count to 0. */
  lemma EmptyDirHasOneLink(fs: Nodes, slot: Places, d: nat, k: nat, x: nat)
    requires Inv(fs, slot) && k >= 2 && Ent(fs, d, k) == x && IsDir(fs, x) && EmptyDir(fs[x].entries)
    ensures x != ROOTINO && LinkedDir(fs, x) && x != d && Ent(fs, x, 1) == d
    ensures Refs(fs, x) == {(d, k)} && fs[x].nlink == 1
  {
    assert Names(fs, slot, d, k);
    RefsMeans(fs, slot, x);
    assert (d, k) in Refs(fs, x);
    forall e: nat, j: nat | (e, j) in Refs(fs, x) ensures (e, j) == (d, k) {
      assert Names(fs, slot, e, j);
      assert j == 1 ==> Hangs(fs, slot, e);
    }
    assert Refs(fs, x) == {(d, k)};
  }

  // ---------- the moves ----------

  /** Entry k of es becomes e, one past the end when k is the length. */
  function Put(es: seq<Dirent>, k: nat, e: Dirent): seq<Dirent>
    requires k <= |es|
  {
    if k < |es| then es[k := e] else es + [e]
  }

  predicate Available(es: seq<Dirent>, k: nat, name: string) {
    && 2 <= k <= |es| && (k < |es| ==> es[k].inum == 0)
    && (forall j :: 0 <= j < |es| && es[j].inum != 0 ==> es[j].name != name)
  }

  /** Entry k of dp is made to name the inode x, which is not a directory. */
  function Linked(fs: Nodes, dp: nat, k: nat, name: string, x: nat): Nodes
    requires IsDir(fs, dp) && x in fs && k <= |fs[dp].entries|
  {
    fs[x := fs[x].(nlink := fs[x].nlink + 1)][dp := fs[dp].(entries := Put(fs[dp].entries, k, Dirent(x, name)))]
  }

  /** Entry k of dp no longer names anything. */
  function Unlinked(fs: Nodes, dp: nat, k: nat): Nodes
    requires IsDir(fs, dp) && k < |fs[dp].entries| && fs[dp].entries[k].inum in fs
  {
    var x := fs[dp].entries[k].inum;
    fs[dp := fs[dp].(entries := fs[dp].entries[k := FREE])][x := fs[x].(nlink := fs[x].nlink - 1)]
  }

  lemma PutDotted(es: seq<Dirent>, d: nat, k: nat, x: nat, name: string)
    requires Dotted(es, d) && Available(es, k, name)
    ensures Dotted(Put(es, k, Dirent(x, name)), d)
  {
  }

  /** The same inodes, directories and linked directories. */
  ghost predicate SameNodes(fs: Nodes, fs': Nodes) {
    && fs'.Keys == fs.Keys
    && (forall d: nat :: IsDir(fs', d) <==> IsDir(fs, d))
    && (forall d: nat :: LinkedDir(fs', d) <==> LinkedDir(fs, d))
  }

  /** fs' has fs's entries, but for entry k of dp, which names x. */
  ghost predicate EntrySet(fs: Nodes, fs': Nodes, dp: nat, k: nat, x: nat) {
    forall d: nat, j: nat :: Ent(fs', d, j) == if (d, j) == (dp, k) then x else Ent(fs, d, j)
  }

  ghost predicate AllDotted(fs: Nodes) {
    forall d: nat :: IsDir(fs, d) ==> if LinkedDir(fs, d) then Dotted(fs[d].entries, d) else Orphan(fs[d].entries, d)
  }

  /** Every directory stays dotted when one of them gains an entry. */
  lemma AllDottedAfter(fs: Nodes, slot: Places, fs': Nodes, dp: nat, k: nat, name: string, x: nat)
    requires Tree(fs, slot) && LinkedDir(fs, dp) && Available(fs[dp].entries, k, name) && dp in fs'
    requires fs'[dp].entries == Put(fs[dp].entries, k, Dirent(x, name))
    requires LinkedDir(fs', dp)
    requires forall d: nat :: IsDir(fs', d) && d != dp ==>
               (d in fs && fs'[d] == fs[d]) || (LinkedDir(fs', d) && Dotted(fs'[d].entries, d))
    ensures AllDotted(fs')
  {
    assert Hangs(fs, slot, dp);
    PutDotted(fs[dp].entries, dp, k, x, name);
    forall d: nat | LinkedDir(fs', d) ensures Dotted(fs'[d].entries, d) {
      if d in fs && fs'[d] == fs[d] {
        assert Hangs(fs, slot, d);
      }
    }
  }

  /** Setting an ordinary entry to a file or clearing one that named a file keeps the tree. */
  lemma EntryTree(fs: Nodes, slot: Places, fs': Nodes, dp: nat, k: nat, x: nat)
    requires Tree(fs, slot) && SameNodes(fs, fs') && EntrySet(fs, fs', dp, k, x) && AllDotted(fs')
    requires k >= 2 && (x != 0 ==> x in fs && !IsDir(fs, x)) && !IsDir(fs, Ent(fs, dp, k))
    ensures Tree(fs', slot)
  {
    hide Ent, Dotted;
    forall d: nat | LinkedDir(fs', d) ensures Hangs(fs', slot, d) {
      assert Hangs(fs, slot, d);
    }
    forall d: nat, j: nat | Ent(fs', d, j) != 0 ensures Names(fs', slot, d, j) {
      assert (d, j) != (dp, k) ==> Names(fs, slot, d, j);
    }
  }

  /** Every inode's count moves by as much as its entries do. */
  lemma EntryCounts(fs: Nodes, slot: Places, fs': Nodes, dp: nat, k: nat, x: nat)
    requires Inv(fs, slot) && Tree(fs', slot) && fs'.Keys == fs.Keys && EntrySet(fs, fs', dp, k, x) && k >= 1
    requires Ent(fs, dp, k) != x
    requires forall y :: y in fs ==>
               fs'[y].nlink == fs[y].nlink + (if y == x then 1 else 0) - (if y == Ent(fs, dp, k) then 1 else 0)
    ensures Inv(fs', slot)
  {
    forall y | y in fs' ensures fs'[y].nlink == |Refs(fs', y)| {
      RefsMeans(fs, slot, y);
      hide Tree, Ent, Refs;
      Recount(fs, slot, fs', slot, y, if y == Ent(fs, dp, k) then {(dp, k)} else {}, if y == x then {(dp, k)} else {});
    }
  }

  lemma LinkedMeans(fs: Nodes, dp: nat, k: nat, name: string, x: nat)
    requires LinkedDir(fs, dp) && k <= |fs[dp].entries| && x in fs && !IsDir(fs, x)
    ensures SameNodes(fs, Linked(fs, dp, k, name, x)) && EntrySet(fs, Linked(fs, dp, k, name, x), dp, k, x)
  {
  }

  /** Naming a file once more, and counting it, keeps the invariant. */
  lemma LinkKeeps(fs: Nodes, slot: Places, dp: nat, k: nat, name: string, x: nat)
    requires Inv(fs, slot) && LinkedDir(fs, dp) && Available(fs[dp].entries, k, name)
    requires x in fs && !fs[x].kind.T_DIR?
    ensures Inv(Linked(fs, dp, k, name, x), slot)
  {
    assert 0 !in fs;
    hide Tree;
    var fs' := Linked(fs, dp, k, name, x);
    AllDottedAfter(fs, slot, fs', dp, k, name, x);
    LinkedMeans(fs, dp, k, name, x);
    assert fs'.Keys == fs.Keys;
    hide SameNodes, EntrySet, AllDotted;
    EntryTree(fs, slot, fs', dp, k, x);
    EntryCounts(fs, slot, fs', dp, k, x);
  }

  /** Clearing an entry that names a file, and counting it off, keeps the invariant. */
  lemma UnlinkKeeps(fs: Nodes, slot: Places, dp: nat, k: nat, x: nat)
    requires Inv(fs, slot) && LinkedDir(fs, dp) && 2 <= k < |fs[dp].entries|
    requires fs[dp].entries[k].inum == x && x in fs && !fs[x].kind.T_DIR?
    ensures Inv(Unlinked(fs, dp, k), slot)
  {
    var fs' := Unlinked(fs, dp, k);
    forall d: nat | LinkedDir(fs', d) ensures Dotted(fs'[d].entries, d) {
      assert Hangs(fs, slot, d);
    }
    EntryTree(fs, slot, fs', dp, k, 0);
    EntryCounts(fs, slot, fs', dp, k, 0);
  }

  /** Naming a file in a directory that is no longer linked breaks its count. */
  lemma OrphanLink(fs: Nodes, slot: Places, dp: nat, k: nat, name: string, x: nat, slot': Places)
    requires Inv(fs, slot) && IsDir(fs, dp) && !LinkedDir(fs, dp) && k <= |fs[dp].entries|
    requires x in fs && !fs[x].kind.T_DIR?
    ensures !Inv(Linked(fs, dp, k, name, x), slot')
  {
    var fs' := Linked(fs, dp, k, name, x);
    assert Refs(fs', x) == Refs(fs, x);
  }

  // ---------- directories come and go ----------

  /** The unlinked directory x gets its dots and is named by entry k of dp. */
  function Attached(fs: Nodes, dp: nat, k: nat, name: string, x: nat): Nodes
    requires IsDir(fs, dp) && k <= |fs[dp].entries|
  {
    fs[x := Node(T_DIR, 1, [Dirent(x, "."), Dirent(dp, "..")])]
      [dp := Node(T_DIR, fs[dp].nlink + 1, Put(fs[dp].entries, k, Dirent(x, name)))]
  }

  /** Entry k of dp, which names the directory x, is cleared. */
  function Detached(fs: Nodes, dp: nat, k: nat, x: nat): Nodes
    requires IsDir(fs, dp) && k < |fs[dp].entries| && x in fs
  {
    fs[dp := Node(T_DIR, fs[dp].nlink - 1, fs[dp].entries[k := FREE])][x := fs[x].(nlink := fs[x].nlink - 1)]
  }

  ghost predicate Attaches(fs: Nodes, fs': Nodes, dp: nat, k: nat, x: nat) {
    && fs'.Keys == fs.Keys
    && (forall d: nat :: IsDir(fs', d) <==> IsDir(fs, d))
    && (forall d: nat :: LinkedDir(fs', d) <==> LinkedDir(fs, d) || d == x)
    && (forall d: nat, j: nat :: Ent(fs', d, j) ==
          if (d, j) == (dp, k) || (d, j) == (x, 0) then x else if (d, j) == (x, 1) then dp else Ent(fs, d, j))
  }

  lemma AttachTree(fs: Nodes, slot: Places, fs': Nodes, dp: nat, k: nat, x: nat)
    requires Tree(fs, slot) && Attaches(fs, fs', dp, k, x) && AllDotted(fs')
    requires IsDir(fs, x) && !LinkedDir(fs, x) && LinkedDir(fs, dp) && k >= 2 && Ent(fs, dp, k) == 0
    ensures Tree(fs', slot[x := Place(k, Depth(slot, dp) + 1)])
  {
    hide Ent, Dotted;
    var slot' := slot[x := Place(k, Depth(slot, dp) + 1)];
    forall d: nat | LinkedDir(fs', d) ensures Hangs(fs', slot', d) {
      assert d != x ==> Hangs(fs, slot, d);
    }
    forall d: nat, j: nat | Ent(fs', d, j) != 0 ensures Names(fs', slot', d, j) {
      assert Ent(fs, d, j) != 0 ==> Names(fs, slot, d, j);
    }
  }

  lemma AttachCounts(fs: Nodes, slot: Places, fs': Nodes, slot': Places, dp: nat, k: nat, x: nat)
    requires Inv(fs, slot) && Tree(fs', slot') && Attaches(fs, fs', dp, k, x)
    requires x in fs && dp in fs && x != dp && !LinkedDir(fs, x) && k >= 2 && Ent(fs, dp, k) == 0
    requires forall y :: y in fs ==> fs'[y].nlink == fs[y].nlink + (if y == x || y == dp then 1 else 0)
    ensures Inv(fs', slot')
  {
    assert Ent(fs, x, 1) == 0;
    forall y | y in fs' ensures fs'[y].nlink == |Refs(fs', y)| {
      RefsMeans(fs, slot, y);
      hide Tree, Ent, Refs;
      Recount(fs, slot, fs', slot', y, {}, if y == x then {(dp, k)} else if y == dp then {(x, 1)} else {});
    }
  }

  lemma AttachedMeans(fs: Nodes, dp: nat, k: nat, name: string, x: nat)
    requires LinkedDir(fs, dp) && k <= |fs[dp].entries| && IsDir(fs, x) && fs[x].nlink == 0
    ensures Attaches(fs, Attached(fs, dp, k, name, x), dp, k, x)
  {
  }

  /** Making a directory keeps the invariant. */
  lemma AttachKeeps(fs: Nodes, slot: Places, dp: nat, k: nat, name: string, x: nat)
    requires Inv(fs, slot) && LinkedDir(fs, dp) && Available(fs[dp].entries, k, name)
    requires IsDir(fs, x) && fs[x].nlink == 0
    ensures Inv(Attached(fs, dp, k, name, x), slot[x := Place(k, Depth(slot, dp) + 1)])
  {
    assert 0 !in fs;
    hide Tree;
    var fs' := Attached(fs, dp, k, name, x);
    AllDottedAfter(fs, slot, fs', dp, k, name, x);
    AttachedMeans(fs, dp, k, name, x);
    hide Attaches;
    AttachTree(fs, slot, fs', dp, k, x);
    AttachCounts(fs, slot, fs', slot[x := Place(k, Depth(slot, dp) + 1)], dp, k, x);
  }

  ghost predicate Detaches(fs: Nodes, fs': Nodes, dp: nat, k: nat, x: nat) {
    && fs'.Keys == fs.Keys
    && (forall d: nat :: IsDir(fs', d) <==> IsDir(fs, d))
    && (forall d: nat :: LinkedDir(fs', d) <==> LinkedDir(fs, d) && d != x)
    && (forall d: nat, j: nat :: Ent(fs', d, j) == if (d, j) == (dp, k) || d == x then 0 else Ent(fs, d, j))
  }

  lemma DetachTree(fs: Nodes, slot: Places, fs': Nodes, dp: nat, k: nat, x: nat)
    requires Tree(fs, slot) && Detaches(fs, fs', dp, k, x) && AllDotted(fs')
    requires k >= 2 && Ent(fs, dp, k) == x && IsDir(fs, x) && forall j: nat :: j >= 2 ==> Ent(fs, x, j) == 0
    ensures Tree(fs', slot)
  {
    assert Names(fs, slot, dp, k);
    hide Ent, Dotted;
    forall d: nat | LinkedDir(fs', d) ensures Hangs(fs', slot, d) {
      assert Hangs(fs, slot, d);
    }
    forall d: nat, j: nat | Ent(fs', d, j) != 0 ensures Names(fs', slot, d, j) {
      assert Names(fs, slot, d, j);
    }
  }

  /** The parent of an ordinary directory has another link besides the child's "..". */
  lemma ParentHasTwo(fs: Nodes, slot: Places, dp: nat, x: nat)
    requires Inv(fs, slot) && LinkedDir(fs, x) && x != ROOTINO && Ent(fs, x, 1) == dp
    ensures LinkedDir(fs, dp) && fs[dp].nlink >= 2 && (x, 1) in Refs(fs, dp)
  {
    assert Hangs(fs, slot, x);
    assert Hangs(fs, slot, dp);
    RefsMeans(fs, slot, dp);
    var other := if dp == ROOTINO then (ROOTINO, 1) else (Ent(fs, dp, 1), slot[dp].at);
    assert other in Refs(fs, dp) && (x, 1) in Refs(fs, dp);
    AtLeastTwo(Refs(fs, dp), other, (x, 1));
  }

  lemma AtLeastTwo<T>(s: set<T>, a: T, b: T)
    requires a in s && b in s && a != b
    ensures |s| >= 2
  {
    assert |s - {a}| == |s| - 1;
    assert b in s - {a};
  }

  lemma DetachCounts(fs: Nodes, slot: Places, fs': Nodes, dp: nat, k: nat, x: nat)
    requires Inv(fs, slot) && Tree(fs', slot) && Detaches(fs, fs', dp, k, x)
    requires x in fs && dp in fs && x != dp && k >= 2 && Ent(fs, dp, k) == x && Ent(fs, x, 1) == dp
    requires forall j: nat :: j >= 2 ==> Ent(fs, x, j) == 0
    requires forall y :: y in fs ==> fs'[y].nlink == fs[y].nlink - (if y == x || y == dp then 1 else 0)
    ensures Inv(fs', slot)
  {
    forall y | y in fs' ensures fs'[y].nlink == |Refs(fs', y)| {
      RefsMeans(fs, slot, y);
      hide Tree, Ent, Refs;
      Recount(fs, slot, fs', slot, y, if y == x then {(dp, k)} else if y == dp then {(x, 1)} else {}, {});
    }
  }

  /** The directory that goes keeps only its dots. */
  lemma DetachDotted(fs: Nodes, slot: Places, dp: nat, k: nat, x: nat)
    requires Tree(fs, slot) && LinkedDir(fs, dp) && fs[dp].nlink >= 2 && 2 <= k < |fs[dp].entries|
    requires LinkedDir(fs, x) && fs[x].nlink == 1 && EmptyDir(fs[x].entries) && Ent(fs, x, 1) == dp && x != dp
    ensures AllDotted(Detached(fs, dp, k, x)) && forall j: nat :: j >= 2 ==> Ent(fs, x, j) == 0
  {
    var fs' := Detached(fs, dp, k, x);
    assert Hangs(fs, slot, x);
    forall d: nat | IsDir(fs', d) && d != x
      ensures if LinkedDir(fs', d) then Dotted(fs'[d].entries, d) else Orphan(fs'[d].entries, d)
    {
      assert LinkedDir(fs, d) ==> Hangs(fs, slot, d);
    }
  }

  /** UNLINKING AN EMPTY DIRECTORY drops it to 0 links and keeps the invariant. */
  lemma DetachKeeps(fs: Nodes, slot: Places, dp: nat, k: nat, x: nat)
    requires Inv(fs, slot) && LinkedDir(fs, dp) && 2 <= k < |fs[dp].entries|
    requires fs[dp].entries[k].inum == x && IsDir(fs, x) && EmptyDir(fs[x].entries)
    ensures Inv(Detached(fs, dp, k, x), slot) && Detached(fs, dp, k, x)[x].nlink == 0
            && LinkedDir(Detached(fs, dp, k, x), dp)
  {
    var fs' := Detached(fs, dp, k, x);
    EmptyDirHasOneLink(fs, slot, dp, k, x);
    ParentHasTwo(fs, slot, dp, x);
    DetachDotted(fs, slot, dp, k, x);
    hide AllDotted, Dotted, Orphan, EmptyDir;
    DetachTree(fs, slot, fs', dp, k, x);
    DetachCounts(fs, slot, fs', dp, k, x);
  }

  /** Making a directory in one that is no longer linked leaves a linked directory nobody holds. */
  lemma OrphanAttach(fs: Nodes, slot: Places, dp: nat, k: nat, name: string, x: nat, slot': Places)
    requires Inv(fs, slot) && IsDir(fs, dp) && fs[dp].nlink == 0 && k <= |fs[dp].entries|
    requires IsDir(fs, x) && fs[x].nlink == 0 && x != dp
    ensures !Inv(Attached(fs, dp, k, name, x), slot')
  {
    var fs' := Attached(fs, dp, k, name, x);
    RefsMeans(fs, slot, dp);
    assert Refs(fs, dp) == {};
    if Inv(fs', slot') {
      var p := Ent(fs', dp, 1);
      assert Hangs(fs', slot', dp);
      var at := slot'[dp].at;
      assert Ent(fs', p, at) == dp;
      var before := Ent(fs, p, at);
      assert false;
    }
  }

  // ---------- inodes come and go ----------

  /** A free inode is allocated with no links: nothing names it. */
  lemma AllocKeeps(fs: Nodes, slot: Places, x: nat, kind: Kind)
    requires Inv(fs, slot) && x !in fs && x != 0
    ensures Inv(fs[x := Node(kind, 0, [])], slot)
  {
    var fs' := fs[x := Node(kind, 0, [])];
    assert forall d: nat, j: nat :: Ent(fs', d, j) == Ent(fs, d, j);
    SameEntries(fs, slot, fs', x);
  }

  /** An inode without links is freed: nothing named it. */
  lemma FreeKeeps(fs: Nodes, slot: Places, x: nat)
    requires Inv(fs, slot) && x in fs && fs[x].nlink == 0
    ensures Inv(fs - {x}, slot)
  {
    var fs' := fs - {x};
    assert forall d: nat, j: nat :: Ent(fs', d, j) == Ent(fs, d, j);
    SameEntries(fs, slot, fs', x);
  }

  /** Adding or dropping an inode x that no entry names. */
  lemma SameEntries(fs: Nodes, slot: Places, fs': Nodes, x: nat)
    requires Inv(fs, slot) && x != 0
    requires x in fs ==> fs[x].nlink == 0
    requires x in fs' ==> fs'[x].nlink == 0 && fs'[x].entries == []
    requires forall y :: y != x ==> (y in fs <==> y in fs') && (y in fs ==> fs'[y] == fs[y])
    requires forall d: nat, j: nat :: Ent(fs', d, j) == Ent(fs, d, j)
    ensures Inv(fs', slot)
  {
    RefsMeans(fs, slot, x);
    assert x in fs ==> Refs(fs, x) == {};
    forall d: nat, j: nat | j >= 1 ensures Ent(fs, d, j) != x {
      assert Ent(fs, d, j) != 0 ==> Names(fs, slot, d, j);
    }
    SameTree(fs, slot, fs', x);
    RefsMeans(fs', slot, x);
    forall y | y in fs' ensures fs'[y].nlink == |Refs(fs', y)| {
      RefsMeans(fs, slot, y);
      RefsMeans(fs', slot, y);
      hide Tree, Ent;
      if y != x {
        Recount(fs, slot, fs', slot, y, {}, {});
      } else {
        assert Refs(fs', x) == {};
      }
    }
  }

  lemma SameTree(fs: Nodes, slot: Places, fs': Nodes, x: nat)
    requires Tree(fs, slot) && !LinkedDir(fs, x) && !LinkedDir(fs', x) && x != 0
    requires x in fs' ==> fs'[x].entries == []
    requires forall y :: y != x ==> (y in fs <==> y in fs') && (y in fs ==> fs'[y] == fs[y])
    requires forall d: nat, j: nat :: Ent(fs', d, j) == Ent(fs, d, j)
    requires forall d: nat, j: nat :: j >= 1 ==> Ent(fs, d, j) != x
    ensures Tree(fs', slot)
  {
    forall d: nat | LinkedDir(fs', d) ensures Dotted(fs'[d].entries, d) && Hangs(fs', slot, d) {
      assert Hangs(fs, slot, d);
    }
    forall d: nat, j: nat | Ent(fs', d, j) != 0 ensures Names(fs', slot, d, j) {
      assert Names(fs, slot, d, j);
      if j == 0 {
        assert Hangs(fs, slot, d);
      }
    }
  }

  // ---------- the system calls ----------

  /** The first entry in use under that name, from the given one on. */
  function Find(es: seq<Dirent>, name: string, from: nat): (k: Option<nat>)
    requires from <= |es|
    ensures k.Some? ==> from <= k.value < |es| && es[k.value].inum != 0 && es[k.value].name == name
    ensures k.Some? ==> forall j :: from <= j < k.value && es[j].inum != 0 ==> es[j].name != name
    ensures k.None? ==> forall j :: from <= j < |es| && es[j].inum != 0 ==> es[j].name != name
    decreases |es| - from
  {
    if from == |es| then None
    else if es[from].inum != 0 && es[from].name == name then Some(from)
    else Find(es, name, from + 1)
  }

  /** The entry that name has in directory d, if any. */
  function At(fs: Nodes, d: nat, name: string): Option<nat> {
    if d in fs then Find(fs[d].entries, Short(name), 0) else None
  }

  /** The inode that name stands for in directory d, 0 for none. */
  function Target(fs: Nodes, d: nat, name: string): nat {
    if At(fs, d, name).Some? then fs[d].entries[At(fs, d, name).value].inum else 0
  }

  predicate Present(es: seq<Dirent>, name: string) {
    exists k :: 0 <= k < |es| && es[k].inum != 0 && es[k].name == name
  }

  /** The entry that dirlink takes: the first free one, or one past the end. */
  predicate FirstFree(es: seq<Dirent>, k: nat) {
    k <= |es| && (forall j :: 0 <= j < k ==> es[j].inum != 0) && (k < |es| ==> es[k].inum == 0)
  }

  /** Where that is, from the given entry on. */
  function Vacant(es: seq<Dirent>, from: nat): (k: nat)
    requires from <= |es|
    ensures from <= k <= |es|
    decreases |es| - from
  {
    if from == |es| || es[from].inum == 0 then from else Vacant(es, from + 1)
  }

  lemma {:induction false} VacantIs(es: seq<Dirent>, from: nat, k: nat)
    requires from <= k && FirstFree(es, k)
    ensures Vacant(es, from) == k
    decreases k - from
  {
    if from < k {
      VacantIs(es, from + 1, k);
    }
  }

  /** No entry is free and the directory has its largest size: dirlink panics. */
  predicate NoRoom(es: seq<Dirent>) {
    |es| >= MAXENTRIES && forall j :: 0 <= j < MAXENTRIES ==> es[j].inum != 0
  }

  /** What a directory file can hold. */
  ghost predicate FitsDir(es: seq<Dirent>, ninodes: nat) {
    |es| <= MAXENTRIES && forall k :: 0 <= k < |es| ==>
      es[k].inum < ninodes && |es[k].name| <= DIRSIZ && IsName(es[k].name)
  }

  /** What unlinking entry k of dp leaves; an inode without links is freed unless it is held open. */
  function Removed(fs: Nodes, dp: nat, k: nat, held: bool): Nodes
    requires IsDir(fs, dp) && k < |fs[dp].entries| && fs[dp].entries[k].inum in fs
  {
    var x := fs[dp].entries[k].inum;
    var next := if IsDir(fs, x) then Detached(fs, dp, k, x) else Unlinked(fs, dp, k);
    if next[x].nlink == 0 && !held then next - {x} else next
  }

  /** What creating inode x under entry k of dp leaves. */
  function Grown(fs: Nodes, dp: nat, k: nat, name: string, x: nat, kind: Kind): Nodes
    requires IsDir(fs, dp) && k <= |fs[dp].entries| && x !in fs
  {
    var next := fs[x := Node(kind, 0, [])];
    if kind.T_DIR? then Attached(next, dp, k, name, x) else Linked(next, dp, k, name, x)
  }

  predicate IsFile(fs: Nodes, x: nat) { x in fs && fs[x].kind.T_FILE? }

  /** A directory that is not empty. */
  predicate Busy(fs: Nodes, x: nat) { IsDir(fs, x) && !EmptyDir(fs[x].entries) }

  /** A name other than the dots sits behind them, names one inode, and is nowhere else. */
  lemma EntryFound(fs: Nodes, slot: Places, dp: nat, k: nat, name: string)
    requires Inv(fs, slot) && IsDir(fs, dp) && k < |fs[dp].entries| && fs[dp].entries[k].inum != 0
    requires fs[dp].entries[k].name == name && name != "." && name != ".."
    ensures LinkedDir(fs, dp) && k >= 2 && fs[dp].entries[k].inum in fs && fs[fs[dp].entries[k].inum].nlink >= 1
    ensures forall j :: 0 <= j < |fs[dp].entries| && fs[dp].entries[j].inum != 0 && fs[dp].entries[j].name == name ==>
            j == k
    ensures 0 !in fs
  {
    assert !LinkedDir(fs, dp) ==> Orphan(fs[dp].entries, dp);
    assert Hangs(fs, slot, dp);
    NamedIsLinked(fs, slot, dp, k);
  }

  /** REMOVING A NAME, of a file or of an empty directory, keeps the invariant and takes away that name only. */
  lemma RemovedKeeps(fs: Nodes, slot: Places, dp: nat, k: nat, x: nat, held: bool, name: string)
    requires Inv(fs, slot) && LinkedDir(fs, dp) && 2 <= k < |fs[dp].entries| && fs[dp].entries[k].inum == x && x in fs
    requires fs[x].nlink >= 1 && !Busy(fs, x)
    requires forall j :: 0 <= j < |fs[dp].entries| && fs[dp].entries[j].inum != 0 && fs[dp].entries[j].name == name ==>
             j == k
    ensures x != dp && Inv(Removed(fs, dp, k, held), slot) && LinkedDir(Removed(fs, dp, k, held), dp)
    ensures !Present(Removed(fs, dp, k, held)[dp].entries, name)
    ensures IsDir(fs, x) && !held ==> x !in Removed(fs, dp, k, held)
  {
    hide Inv;
    if IsDir(fs, x) {
      EmptyDirHasOneLink(fs, slot, dp, k, x);
      DetachKeeps(fs, slot, dp, k, x);
      var next := Detached(fs, dp, k, x);
      FreeKeeps(next, slot, x);
    } else {
      UnlinkKeeps(fs, slot, dp, k, x);
      var next := Unlinked(fs, dp, k);
      if next[x].nlink == 0 {
        FreeKeeps(next, slot, x);
      }
    }
  }

  /** The first free entry of a linked directory lies behind the dots. */
  lemma SlotAvailable(fs: Nodes, slot: Places, dp: nat, off: nat, name: string)
    requires Inv(fs, slot) && LinkedDir(fs, dp) && !Present(fs[dp].entries, name)
    requires FirstFree(fs[dp].entries, off)
    ensures Available(fs[dp].entries, off, name)
  {
    assert Hangs(fs, slot, dp);
  }

  lemma NoInodeZero(fs: Nodes, slot: Places)
    requires Inv(fs, slot)
    ensures 0 !in fs
  {
  }

  /** LINKING KEEPS THE INVARIANT EXACTLY WHEN the parent directory is still linked. */
  lemma LinkedInv(fs: Nodes, slot: Places, dp: nat, k: nat, name: string, x: nat)
    requires Inv(fs, slot) && IsDir(fs, dp) && x in fs && !IsDir(fs, x)
    requires !Present(fs[dp].entries, name) && FirstFree(fs[dp].entries, k)
    ensures Inv(Linked(fs, dp, k, name, x), slot) <==> LinkedDir(fs, dp)
  {
    hide Inv;
    if LinkedDir(fs, dp) {
      SlotAvailable(fs, slot, dp, k, name);
      LinkKeeps(fs, slot, dp, k, name, x);
    } else {
      OrphanLink(fs, slot, dp, k, name, x, slot);
    }
  }

  /** CREATING KEEPS THE INVARIANT EXACTLY WHEN the parent directory is still linked. */
  lemma CreatedKeeps(fs: Nodes, slot: Places, dp: nat, k: nat, name: string, x: nat)
    requires Inv(fs, slot) && IsDir(fs, dp) && x in fs && x != dp && fs[x].nlink == 0
    requires !Present(fs[dp].entries, name)
    requires FirstFree(fs[dp].entries, k)
    ensures !IsDir(fs, x) ==> (Inv(Linked(fs, dp, k, name, x), slot) <==> LinkedDir(fs, dp))
    ensures IsDir(fs, x) && LinkedDir(fs, dp) ==>
              Inv(Attached(fs, dp, k, name, x), slot[x := Place(k, Depth(slot, dp) + 1)])
    ensures IsDir(fs, x) && !LinkedDir(fs, dp) ==> !Inv(Attached(fs, dp, k, name, x), slot)
  {
    assert fs[dp].nlink == |Refs(fs, dp)|;
    hide Inv;
    if LinkedDir(fs, dp) {
      SlotAvailable(fs, slot, dp, k, name);
      if IsDir(fs, x) {
        AttachKeeps(fs, slot, dp, k, name, x);
      } else {
        LinkKeeps(fs, slot, dp, k, name, x);
      }
    } else if IsDir(fs, x) {
      OrphanAttach(fs, slot, dp, k, name, x, slot);
    } else {
      OrphanLink(fs, slot, dp, k, name, x, slot);
    }
  }

  lemma RootRefs(fs: Nodes)
    requires fs == map[ROOTINO := Node(T_DIR, 1, [Dirent(ROOTINO, "."), Dirent(ROOTINO, "..")])]
    ensures Inv(fs, map[])
  {
    assert Refs(fs, ROOTINO) == {(ROOTINO, 1)};
    assert forall d: nat | LinkedDir(fs, d) :: Hangs(fs, map[], d);
  }

  // ---------- a directory that is removed while it is somebody's current directory ----------

  /** A new file system, with the file "f" and the directory "d" made, and "d" unlinked while it is held. */
  function Mkfs(): Nodes { map[ROOTINO := Node(T_DIR, 1, [Dirent(ROOTINO, "."), Dirent(ROOTINO, "..")])] }

  function WithFile(): Nodes { Grown(Mkfs(), ROOTINO, 2, "f", 2, T_FILE) }

  function WithDir(): Nodes { Grown(WithFile(), ROOTINO, 3, "d", 3, T_DIR) }

  function WithoutDir(): Nodes { Removed(WithDir(), ROOTINO, 3, true) }

  lemma MadeTree()
    ensures WithFile().Keys == {ROOTINO, 2} && WithFile()[2] == Node(T_FILE, 1, [])
    ensures WithFile()[ROOTINO] == Node(T_DIR, 1, [Dirent(ROOTINO, "."), Dirent(ROOTINO, ".."), Dirent(2, "f")])
    ensures WithDir().Keys == {ROOTINO, 2, 3} && WithDir()[2] == Node(T_FILE, 1, [])
    ensures WithDir()[3] == Node(T_DIR, 1, [Dirent(3, "."), Dirent(ROOTINO, "..")])
    ensures WithDir()[ROOTINO]
            == Node(T_DIR, 2, [Dirent(ROOTINO, "."), Dirent(ROOTINO, ".."), Dirent(2, "f"), Dirent(3, "d")])
  {
  }

  /** Making a file or a directory, from a free inode. */
  lemma GrownKeeps(fs: Nodes, slot: Places, dp: nat, k: nat, name: string, x: nat, kind: Kind)
    requires Inv(fs, slot) && LinkedDir(fs, dp) && x !in fs && x != 0 && !Present(fs[dp].entries, name)
             && FirstFree(fs[dp].entries, k)
    ensures Inv(Grown(fs, dp, k, name, x, kind), if kind.T_DIR? then slot[x := Place(k, Depth(slot, dp) + 1)] else slot)
  {
    AllocKeeps(fs, slot, x, kind);
    hide Inv;
    CreatedKeeps(fs[x := Node(kind, 0, [])], slot, dp, k, name, x);
  }

  lemma MadeTreeIsValid()
    ensures Inv(WithDir(), map[3 := Place(3, 1)])
  {
    RootRefs(Mkfs());
    MadeTree();
    hide Inv;
    GrownKeeps(Mkfs(), map[], ROOTINO, 2, "f", 2, T_FILE);
    hide WithDir;
    GrownKeeps(WithFile(), map[], ROOTINO, 3, "d", 3, T_DIR);
  }

  lemma RemovedWhileHeld()
    ensures Inv(WithoutDir(), map[3 := Place(3, 1)]) && WithoutDir().Keys == {ROOTINO, 2, 3}
    ensures WithoutDir()[3] == Node(T_DIR, 0, [Dirent(3, "."), Dirent(ROOTINO, "..")])
            && WithoutDir()[2] == Node(T_FILE, 1, [])
  {
    MadeTree();
    MadeTreeIsValid();
    hide Inv, WithDir, WithFile;
    DetachKeeps(WithDir(), map[3 := Place(3, 1)], ROOTINO, 3, 3);
  }

  /** LINK AND CREATE BREAK THE COUNTS in a directory that was removed while held, and such a one is reached. */
  lemma HeldDirectoryExample(slot: Places)
    ensures Inv(WithoutDir(), map[3 := Place(3, 1)]) && IsDir(WithoutDir(), 3) && 4 !in WithoutDir()
    ensures !Present(WithoutDir()[3].entries, "g") && FirstFree(WithoutDir()[3].entries, 2)
    ensures !Inv(Linked(WithoutDir(), 3, 2, "g", 2), slot)
    ensures !Inv(Grown(WithoutDir(), 3, 2, "g", 4, T_FILE), slot)
            && !Inv(Grown(WithoutDir(), 3, 2, "g", 4, T_DIR), slot)
  {
    RemovedWhileHeld();
    hide WithoutDir, Inv;
    var fs, slot0 := WithoutDir(), map[3 := Place(3, 1)];
    AllocKeeps(fs, slot0, 4, T_FILE);
    AllocKeeps(fs, slot0, 4, T_DIR);
    OrphanLink(fs, slot0, 3, 2, "g", 2, slot);
    OrphanLink(fs[4 := Node(T_FILE, 0, [])], slot0, 3, 2, "g", 4, slot);
    OrphanAttach(fs[4 := Node(T_DIR, 0, [])], slot0, 3, 2, "g", 4, slot);
  }
}
