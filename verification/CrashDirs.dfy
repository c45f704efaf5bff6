/** Directories on the log: a crash inside link, unlink or create leaves, after recovery, the tree before it or
    the tree after it. */
module CrashDirs {
  import opened Blocks
  import opened Prelude
  import opened FsState
  import opened FsImage
  import opened LogSpec
  import opened LogRuns
  import opened File
  import opened Dirs
  import opened DirImage
  import opened SysFile
  import opened CrashSafe
  import Fs
  import L = Log

  /** The home sectors m can be decoded, and whoever does finds the tree fs. */
  ghost predicate ShowsTree(g: Geometry, sb: Super, m: map<nat, Block>, fs: Nodes) {
    Decodes(g, sb, m) && forall v :: Sized(sb, v) && Image(g, sb, v) == m ==> TreeOn(v, fs)
  }

  lemma TreeShows(g: Geometry, sb: Super, v: Parts, own: map<nat, (nat, nat)>, fs: Nodes)
    requires Standard(g, sb, ROOTINO) && Settled(sb, v, own) && TreeOn(v, fs) && LinksFit(fs)
    ensures ShowsTree(g, sb, Image(g, sb, v), fs)
  {
    hide Image, Sector, Owned;
    SettledSized(sb, v, own, fs);
    ImageDecodes(g, sb, v);
    forall w | Sized(sb, w) && Image(g, sb, w) == Image(g, sb, v) ensures TreeOn(w, fs) {
      SameTreeThere(g, sb, v, own, fs, w);
    }
  }

  lemma SameTreeThere(g: Geometry, sb: Super, v: Parts, own: map<nat, (nat, nat)>, fs: Nodes, w: Parts)
    requires Standard(g, sb, ROOTINO) && Settled(sb, v, own) && TreeOn(v, fs) && Sized(sb, v) && Sized(sb, w)
    requires Image(g, sb, w) == Image(g, sb, v)
    ensures TreeOn(w, fs)
  {
    hide Sector, Owned, Bytes, DirBytes, FitsDir, FreeInode;
    forall s: nat | s < LogStart(sb) ensures Sector(sb, v, s) == Sector(sb, w, s) {
      assert Image(g, sb, v)[s] == Image(g, sb, w)[s];
    }
    SectorsDetermine(sb, v, w);
    forall i: nat | i < |w.inodes| ensures NodeOn(w, fs, i) {
      assert NodeOn(v, fs, i);
      hide Image;
      if i in fs {
        FileIsNow(sb, v, own, i, v.inodes[i]);
        RecoveredFile(g, sb, v, w, i, Contents(v.inodes[i], v.data));
      }
    }
  }

  lemma SettledData(sb: Super, v: Parts, own: map<nat, (nat, nat)>)
    requires Settled(sb, v, own)
    ensures |v.data| == sb.size
  {
    OwnedSizes(sb, v.inodes, v.bits, v.data, own);
  }

  // ---------- runs and lives ----------

  /** The trees between the transactions of a run, and the disks that hold them. */
  ghost predicate Trees(sb: Super, vs: seq<Parts>, owns: seq<map<nat, (nat, nat)>>, trees: seq<Nodes>) {
    |owns| == |trees| == |vs| && forall j :: 0 <= j < |vs| ==> Settled(sb, vs[j], owns[j]) && TreeOn(vs[j], trees[j])
  }

  /** DIRECTORY OPERATIONS CUT BY A CRASH: a run of link, unlink and create transactions stops after any k sector
      writes. Recovery leaves exactly the disk after the transactions that had committed, and so, with counts that
      their short can hold, their tree: never half a link, an entry without its count or a directory without its
      parent. */
  lemma TreesCrash(g: Geometry, sb: Super, d: Disk, vs: seq<Parts>, txs: seq<Transaction>, logs: seq<set<nat>>,
                   owns: seq<map<nat, (nat, nat)>>, trees: seq<Nodes>, k: nat)
    requires Standard(g, sb, ROOTINO) && LogSteps(sb, ROOTINO, vs, txs, logs) && |d| == sb.size
    requires Quiet(g, d) && HomeMap(g, d) == Image(g, sb, vs[0]) && Trees(sb, vs, owns, trees)
    ensures LegalAll(g, d, txs) && GoodHead(g, AfterRun(g, d, txs, k))
    ensures var j := CommittedBy(txs, k);
            var m := RecoveredMap(g, AfterRun(g, d, txs, k));
            m == Image(g, sb, vs[j]) && (LinksFit(trees[j]) ==> ShowsTree(g, sb, m, trees[j]))
  {
    hide Logs, Chain, Image, ShowsTree, Settled, TreeOn, LinksFit, Standard, Quiet;
    var j := CommittedBy(txs, k);
    SettledData(sb, vs[0], owns[0]);
    LogStepsLegal(g, sb, d, ROOTINO, vs, txs, logs);
    RecoveredState(g, sb, d, vs, txs, logs, k);
    if LinksFit(trees[j]) {
      TreeShows(g, sb, vs[j], owns[j], trees[j]);
    }
  }

  /** The same over the life of a disk: whatever crashed when, the next recovery finds the tree after the last
      transaction that committed. */
  lemma TreesForLife(g: Geometry, sb: Super, d: Disk, boots: seq<Boot>, vs: seq<Parts>, logs: seq<set<nat>>,
                     owns: seq<map<nat, (nat, nat)>>, trees: seq<Nodes>)
    requires Standard(g, sb, ROOTINO) && |d| == sb.size && Fits(g, d) && GoodHead(g, d) && LegalBoots(g, d, boots)
    requires LogSteps(sb, ROOTINO, vs, Survivors(boots), logs) && RecoveredMap(g, d) == Image(g, sb, vs[0])
    requires Trees(sb, vs, owns, trees)
    ensures var n := |Survivors(boots)|;
            var m := HomeMap(g, Recover(g, AfterBoots(g, d, boots)));
            m == Image(g, sb, vs[n]) && (LinksFit(trees[n]) ==> ShowsTree(g, sb, m, trees[n]))
  {
    hide Logs, Chain, Image, ShowsTree, Settled, TreeOn, LinksFit, Standard, GoodHead, LegalBoots, HomeMap,
         RecoveredMap, AfterBoots, Recover;
    var n := |Survivors(boots)|;
    SettledData(sb, vs[0], owns[0]);
    LogStepsLegal(g, sb, d, ROOTINO, vs, Survivors(boots), logs);
    RecoveredForLife(g, sb, d, boots, vs, logs);
    if LinksFit(trees[n]) {
      TreeShows(g, sb, vs[n], owns[n], trees[n]);
    }
  }

  // ---------- one operation on the code of cache and log ----------

  /** A disk on which home sectors m stand for the disk v with the tree fs. */
  ghost predicate HoldsTree(g: Geometry, sb: Super, m: map<nat, Block>, v: Parts, fs: Nodes) {
    m == Image(g, sb, v) && (LinksFit(fs) ==> ShowsTree(g, sb, m, fs))
  }

  /** The disk after the first k of the sector writes ws is recovered to that. */
  ghost predicate Recovers(g: Geometry, sb: Super, d: Disk, ws: seq<Write>, k: nat, v: Parts, fs: Nodes) {
    && k <= |ws| && InRange(d, ws[..k])
    && var d' := ApplyAll(d, ws[..k]);
       Fits(g, d') && GoodHead(g, d') && HoldsTree(g, sb, RecoveredMap(g, d'), v, fs)
  }

  /** The operation's transaction tx took the disk from v, with the tree fs, to w, with fs'. The sector writes since
      d0 are those of tx, and after any number of them the disk is recovered to v or, once tx has committed, to w. */
  ghost predicate Survived(log: L.Log, sb: Super, d0: Disk, w0: seq<Write>, tx: Transaction, v: Parts, w: Parts,
                           fs: Nodes, fs': Nodes)
    reads log, log.bc
  {
    && RunsOn(log, d0, w0, [tx]) && Holds(log, sb, w) && HoldsTree(log.g, sb, log.View(), w, fs')
    && forall k: nat :: k <= |RunWrites(log.g, d0, [tx])| ==>
         if CommittedBy([tx], k) == 0 then Recovers(log.g, sb, d0, RunWrites(log.g, d0, [tx]), k, v, fs)
         else Recovers(log.g, sb, d0, RunWrites(log.g, d0, [tx]), k, w, fs')
  }

  /** A panic came first: the sector writes since d0 are the log_write calls of tx, and after any number of them
      the disk is recovered to v. */
  ghost predicate Stopped(log: L.Log, sb: Super, d0: Disk, w0: seq<Write>, tx: Transaction, v: Parts, fs: Nodes)
    reads log, log.bc
  {
    && StopsIn(log, d0, w0, [], tx)
    && forall k: nat :: k <= |WritesUpTo(log.g, d0, [], tx)| ==>
       Recovers(log.g, sb, d0, WritesUpTo(log.g, d0, [], tx), k, v, fs)
  }

  lemma OneTree(g: Geometry, sb: Super, d: Disk, v: Parts, own: map<nat, (nat, nat)>, fs: Nodes,
                tx: Transaction, logged: set<nat>, w: Parts, own': map<nat, (nat, nat)>, fs': Nodes, k: nat)
    requires Standard(g, sb, ROOTINO) && Logs(sb, ROOTINO, v, w, tx, logged) && |d| == sb.size
    requires Quiet(g, d) && HomeMap(g, d) == Image(g, sb, v) && LegalAll(g, d, [tx]) && k <= |RunWrites(g, d, [tx])|
    requires Settled(sb, v, own) && TreeOn(v, fs) && Settled(sb, w, own') && TreeOn(w, fs')
    ensures if CommittedBy([tx], k) == 0 then Recovers(g, sb, d, RunWrites(g, d, [tx]), k, v, fs)
            else Recovers(g, sb, d, RunWrites(g, d, [tx]), k, w, fs')
  {
    hide Logs, Image, ShowsTree, Settled, TreeOn, LinksFit, Standard, LegalAll, GoodHead, RecoveredMap, AfterRun,
         RunWrites, HomeMap, ApplyAll;
    TreesCrash(g, sb, d, [v, w], [tx], [logged], [own, own'], [fs, fs'], k);
    AfterRunIs(g, d, [tx], k);
  }

  lemma NoTree(g: Geometry, sb: Super, d: Disk, v: Parts, own: map<nat, (nat, nat)>, fs: Nodes, tx: Transaction, k: nat)
    requires Standard(g, sb, ROOTINO) && Quiet(g, d) && HomeMap(g, d) == Image(g, sb, v) && Legal(g, d, tx)
             && LegalAll(g, d, [])
    requires Settled(sb, v, own) && TreeOn(v, fs) && k <= |WritesUpTo(g, d, [], tx)|
    ensures Recovers(g, sb, d, WritesUpTo(g, d, [], tx), k, v, fs)
  {
    hide Image, ShowsTree, Settled, TreeOn, LinksFit, Standard, GoodHead, AppendWrites, HomeMap, Overlay, Legal;
    StoppedRecovers(g, d, [], tx, k);
    EmptyOverlay(g, d);
    if LinksFit(fs) {
      TreeShows(g, sb, v, own, fs);
    }
  }

  /** The transaction that link, unlink or create leaves, run through cache and log: there is no panic. */
  method CommitTree(ns: Namespace, log: L.Log, ghost v: Parts, ghost own: map<nat, (nat, nat)>, ghost fs: Nodes)
    requires Standard(log.g, ns.disk.sb, ROOTINO) && Holds(log, ns.disk.sb, v) && ns.Committed(v)
    requires Settled(ns.disk.sb, v, own) && TreeOn(v, fs)
    modifies log, log.bc
    ensures Survived(log, ns.disk.sb, old(log.bc.disk), old(log.bc.writes), ns.disk.calls, v, ns.disk.Disk(), fs,
                     ns.nodes)
  {
    hide Logs, Image, ShowsTree, Settled, TreeOn, LinksFit, Standard, Quiet, LegalAll, Recovers, RunWrites, ApplyAll,
         Overlay, HomeMap, Covered, Fs.HandedOver, Small;
    ghost var d0, w0, w := log.bc.disk, log.bc.writes, ns.disk.Disk();
    var sb := ns.disk.sb;
    ns.IsLogged(v);
    RunsNone(log);
    ViewIsHome(log);
    SettledData(sb, v, own);
    CommitLast(log, sb, ROOTINO, d0, w0, v, w, [], ns.disk.calls, ns.disk.logged);
    assert [] + [ns.disk.calls] == [ns.disk.calls];
    forall k: nat | k <= |RunWrites(log.g, d0, [ns.disk.calls])|
      ensures if CommittedBy([ns.disk.calls], k) == 0
              then Recovers(log.g, sb, d0, RunWrites(log.g, d0, [ns.disk.calls]), k, v, fs)
              else Recovers(log.g, sb, d0, RunWrites(log.g, d0, [ns.disk.calls]), k, w, ns.nodes)
    {
      OneTree(log.g, sb, d0, v, own, fs, ns.disk.calls, ns.disk.logged, w, ns.disk.own, ns.nodes, k);
    }
    if LinksFit(ns.nodes) {
      TreeShows(log.g, sb, w, ns.disk.own, ns.nodes);
    }
  }

  /** The log_write calls of link or create that came before a panic. */
  method AbandonTree(ns: Namespace, log: L.Log, ghost v: Parts, ghost own: map<nat, (nat, nat)>, ghost fs: Nodes)
    requires Standard(log.g, ns.disk.sb, ROOTINO) && Holds(log, ns.disk.sb, v) && ns.Abandoned(v)
    requires Settled(ns.disk.sb, v, own) && TreeOn(v, fs)
    modifies log, log.bc
    ensures Stopped(log, ns.disk.sb, old(log.bc.disk), old(log.bc.writes), ns.disk.calls, v, fs)
  {
    hide Logs, Image, ShowsTree, Settled, TreeOn, LinksFit, Standard, Quiet, LegalAll, Recovers, ApplyAll, Overlay,
         HomeMap, Covered, Fs.HandedOver, Small, WritesUpTo;
    ghost var d0, w0 := log.bc.disk, log.bc.writes;
    var sb := ns.disk.sb;
    ns.IsLogged(v);
    RunsNone(log);
    ViewIsHome(log);
    SettledData(sb, v, own);
    Abandon(log, sb, ROOTINO, d0, w0, v, ns.disk.Disk(), [], ns.disk.calls, ns.disk.logged);
    forall k: nat | k <= |WritesUpTo(log.g, d0, [], ns.disk.calls)|
      ensures Recovers(log.g, sb, d0, WritesUpTo(log.g, d0, [], ns.disk.calls), k, v, fs)
    {
      NoTree(log.g, sb, d0, v, own, fs, ns.disk.calls, k);
    }
  }

  // ---------- the system calls ----------

  /** What the system calls start from: a valid tree on the disk that bread shows. */
  ghost predicate Starts(ns: Namespace, log: L.Log)
    reads ns, ns.disk, log, log.bc
  {
    ns.Valid() && Standard(log.g, ns.disk.sb, ROOTINO) && Holds(log, ns.disk.sb, ns.disk.Disk())
  }

  /** sys_link through cache and log. */
  method LinkOnLog(ns: Namespace, log: L.Log, ip: Option<nat>, dp: Option<nat>, name: Name)
    returns (r: Status, ghost at: nat)
    requires Starts(ns, log)
    requires ip.Some? ==> ip.value in ns.nodes && (IsDir(ns.nodes, ip.value) || ns.nodes[ip.value].nlink >= 1)
    requires dp.Some? ==> IsDir(ns.nodes, dp.value)
    modifies ns`nodes, ns`start, ns.disk, log, log.bc
    ensures r.Failed? <==> ip.None? || IsDir(old(ns.nodes), ip.value) || dp.None?
                           || Present(old(ns.nodes)[dp.value].entries, Short(name))
    ensures !r.Failed? ==> (r.Panics? <==> NoPlace(old(ns.disk.Disk()), old(ns.nodes)[dp.value].entries, dp.value, 0))
    ensures r.Failed? ==> ns.nodes == old(ns.nodes)
    ensures r.Ok? ==> FirstFree(old(ns.nodes)[dp.value].entries, at)
                      && ns.nodes == Linked(old(ns.nodes), dp.value, at, Short(name), ip.value)
    ensures !r.Panics? ==> (Starts(ns, log) <==> r.Failed? || LinkedDir(old(ns.nodes), dp.value))
    ensures !r.Panics? ==> Survived(log, ns.disk.sb, old(log.bc.disk), old(log.bc.writes), ns.disk.calls,
                                    old(ns.disk.Disk()), ns.disk.Disk(), old(ns.nodes), ns.nodes)
    ensures r.Panics? ==> Stopped(log, ns.disk.sb, old(log.bc.disk), old(log.bc.writes), ns.disk.calls,
                                  old(ns.disk.Disk()), old(ns.nodes))
  {
    hide Inv, Settled, TreeOn, Covered, Fs.HandedOver, Small, Image, Standard, Quiet, ShowsTree, Recovers, RunWrites,
         WritesUpTo, NoPlace, Present;
    ghost var v, own, fs := ns.disk.Disk(), ns.disk.own, ns.nodes;
    r, at := ns.SysLink(ip, dp, name);
    if r.Panics? {
      AbandonTree(ns, log, v, own, fs);
    } else {
      CommitTree(ns, log, v, own, fs);
    }
  }

  /** sys_unlink through cache and log. */
  method UnlinkOnLog(ns: Namespace, log: L.Log, dp: Option<nat>, name: Name, held: bool)
    returns (ok: bool, ghost at: nat)
    requires Starts(ns, log) && (dp.Some? ==> IsDir(ns.nodes, dp.value))
    modifies ns`nodes, ns`start, ns.disk, log, log.bc
    ensures Starts(ns, log)
    ensures !ok <==> dp.None? || name == "." || name == ".." || Target(old(ns.nodes), dp.value, name) == 0
                     || Busy(old(ns.nodes), Target(old(ns.nodes), dp.value, name))
    ensures !ok ==> ns.nodes == old(ns.nodes)
    ensures ok ==> IsDir(old(ns.nodes), dp.value) && Target(old(ns.nodes), dp.value, name) in old(ns.nodes)
    ensures ok ==> At(old(ns.nodes), dp.value, name) == Some(at)
                   && ns.nodes == Removed(old(ns.nodes), dp.value, at, held)
    ensures Survived(log, ns.disk.sb, old(log.bc.disk), old(log.bc.writes), ns.disk.calls,
                     old(ns.disk.Disk()), ns.disk.Disk(), old(ns.nodes), ns.nodes)
  {
    hide Inv, Settled, TreeOn, Covered, Fs.HandedOver, Small, Image, Standard, Quiet, ShowsTree, Recovers, RunWrites,
         WritesUpTo, Removed;
    ghost var v, own, fs := ns.disk.Disk(), ns.disk.own, ns.nodes;
    ok, at := ns.SysUnlink(dp, name, held);
    CommitTree(ns, log, v, own, fs);
  }

  /** create, the transaction of open, mkdir and mknod, through cache and log. */
  method CreateOnLog(ns: Namespace, log: L.Log, dp: Option<nat>, name: Name, kind: Kind, major: int, minor: int)
    returns (r: Creation)
    requires Starts(ns, log) && (dp.Some? ==> IsDir(ns.nodes, dp.value)) && IsShort(major) && IsShort(minor)
    modifies ns`nodes, ns`slot, ns`start, ns.disk, log, log.bc
    ensures r.Panic? <==> dp.Some? && CannotCreate(old(ns.nodes), old(ns.disk.Disk()), dp.value, name, kind)
    ensures r.Existing? <==> dp.Some? && kind.T_FILE? && IsFile(old(ns.nodes), Target(old(ns.nodes), dp.value, name))
    ensures r.Existing? ==> r.inum == Target(old(ns.nodes), dp.value, name)
    ensures r.Refused? || r.Existing? ==> ns.nodes == old(ns.nodes)
    ensures r.Created? ==> dp.Some? && r.inum !in old(ns.nodes) && FirstFree(old(ns.nodes)[dp.value].entries, r.at)
    ensures r.Created? ==> ns.nodes == Dirs.Grown(old(ns.nodes), dp.value, r.at, Short(name), r.inum, kind)
    ensures !r.Panic? ==> (Starts(ns, log) <==> !r.Created? || LinkedDir(old(ns.nodes), dp.value))
    ensures !r.Panic? ==> Survived(log, ns.disk.sb, old(log.bc.disk), old(log.bc.writes), ns.disk.calls,
                                   old(ns.disk.Disk()), ns.disk.Disk(), old(ns.nodes), ns.nodes)
    ensures r.Panic? ==> Stopped(log, ns.disk.sb, old(log.bc.disk), old(log.bc.writes), ns.disk.calls,
                                 old(ns.disk.Disk()), old(ns.nodes))
  {
    hide Inv, Settled, TreeOn, Covered, Fs.HandedOver, Small, Image, Standard, Quiet, ShowsTree, Recovers, RunWrites,
         WritesUpTo, CannotCreate, Dirs.Grown;
    ghost var v, own, fs := ns.disk.Disk(), ns.disk.own, ns.nodes;
    r := ns.Create(dp, name, kind, major, minor);
    if r.Panic? {
      AbandonTree(ns, log, v, own, fs);
    } else {
      CommitTree(ns, log, v, own, fs);
    }
  }
}
