/** The file layer on the log: after a crash at any sector write, recovery brings back the file
    layer's state between two transactions, and no other. */
module CrashSafe {
  import opened Blocks
  import opened FsState
  import opened FsSpace
  import opened FsImage
  import opened Fs
  import opened LogSpec
  import opened LogRuns
  import opened File
  import opened Prelude
  import L = Log
  import BufferCache

  /** The home sectors of a disk whose file layer is in state v. */
  ghost function Image(g: Geometry, sb: Super, v: Parts): map<nat, Block> {
    map s: nat | s < |v.data| && !InLog(g, s) :: Sector(sb, v, s)
  }

  /** One transaction of the file layer, from v to w: every part that changes is in a sector handed
      to log_write, last with its new contents. */
  ghost predicate Carries(g: Geometry, sb: Super, v: Parts, tx: Transaction, w: Parts, logged: set<nat>) {
    && Covered(sb, v, {}, w, logged) && HandedOver(sb, w, tx, logged)
    && (forall s: nat :: s in logged ==> s < |v.data| && !InLog(g, s))
  }

  /** A transaction takes the image of the state before it to the image of the state after it. */
  lemma CarriesImage(g: Geometry, sb: Super, v: Parts, tx: Transaction, w: Parts, logged: set<nat>)
    requires Carries(g, sb, v, tx, w, logged)
    ensures Effect(Image(g, sb, v), tx) == Image(g, sb, w)
  {
    hide Sector;
    var m, m' := Image(g, sb, v), Image(g, sb, w);
    forall s: nat
      ensures s in Effect(m, tx) <==> s in m'
      ensures s in m' ==> s in Effect(m, tx) && Effect(m, tx)[s] == m'[s]
    {
      EffectAt(m, tx, s);
      if s !in logged {
        Unlogged(sb, v, w, logged, s);
      }
    }
  }

  /** The states of a run of file-layer transactions. */
  ghost predicate Chain(g: Geometry, sb: Super, vs: seq<Parts>, txs: seq<Transaction>, logs: seq<set<nat>>) {
    && |vs| == |txs| + 1 && |logs| == |txs|
    && forall j :: 0 <= j < |txs| ==> Carries(g, sb, vs[j], txs[j], vs[j + 1], logs[j])
  }

  lemma {:induction false} ChainImage(g: Geometry, sb: Super, vs: seq<Parts>, txs: seq<Transaction>,
                                      logs: seq<set<nat>>, j: nat)
    requires Chain(g, sb, vs, txs, logs) && j <= |txs|
    ensures EffectAll(Image(g, sb, vs[0]), txs[..j]) == Image(g, sb, vs[j])
    decreases j
  {
    if j == 0 {
      assert txs[..0] == [];
    } else {
      hide Carries, Image;
      ChainImage(g, sb, vs, txs, logs, j - 1);
      CarriesImage(g, sb, vs[j - 1], txs[j - 1], vs[j], logs[j - 1]);
      assert txs[..j] == txs[..j - 1] + [txs[j - 1]];
      EffectConcat(Image(g, sb, vs[0]), txs[..j - 1], [txs[j - 1]]);
      EffectOne(Image(g, sb, vs[j - 1]), txs[j - 1]);
    }
  }

  lemma EffectOne(m: map<nat, Block>, tx: Transaction)
    ensures EffectAll(m, [tx]) == Effect(m, tx)
  {
    assert [tx][1..] == [];
  }

  /** CRASH SAFETY OF THE FILE LAYER: a run of transactions from states vs[0] on, cut after any k
      sector writes, is recovered to exactly the state after the transactions that had committed. */
  lemma RecoveredState(g: Geometry, sb: Super, d: Disk, vs: seq<Parts>, txs: seq<Transaction>, logs: seq<set<nat>>,
                       k: nat)
    requires Quiet(g, d) && LegalAll(g, d, txs) && Chain(g, sb, vs, txs, logs)
    requires HomeMap(g, d) == Image(g, sb, vs[0])
    ensures GoodHead(g, AfterRun(g, d, txs, k))
    ensures RecoveredMap(g, AfterRun(g, d, txs, k)) == Image(g, sb, vs[CommittedBy(txs, k)])
  {
    hide Chain, Image;
    RunCut(g, d, txs, k);
    ChainImage(g, sb, vs, txs, logs, CommittedBy(txs, k));
  }

  /** The same over the life of a disk: whatever crashed when, the next recovery finds the state after
      the last transaction that committed. */
  lemma RecoveredForLife(g: Geometry, sb: Super, d: Disk, boots: seq<Boot>, vs: seq<Parts>, logs: seq<set<nat>>)
    requires Fits(g, d) && GoodHead(g, d) && LegalBoots(g, d, boots)
    requires Chain(g, sb, vs, Survivors(boots), logs) && RecoveredMap(g, d) == Image(g, sb, vs[0])
    ensures HomeMap(g, Recover(g, AfterBoots(g, d, boots))) == Image(g, sb, vs[|Survivors(boots)|])
  {
    hide Chain, Image;
    LifeOfADisk(g, d, boots);
    var txs := Survivors(boots);
    ChainImage(g, sb, vs, txs, logs, |txs|);
    assert txs[..|txs|] == txs;
  }

  /** Whoever reads the recovered sectors finds the files of the state they are the image of. */
  lemma RecoveredFile(g: Geometry, sb: Super, v: Parts, w: Parts, inum: nat, c: seq<byte>)
    requires Sized(sb, v) && Sized(sb, w) && DataStart(sb) <= LogStart(sb) && g == Geometry(LogStart(sb), sb.nlog)
    requires Image(g, sb, w) == Image(g, sb, v) && FileIs(sb, v, inum, c)
    ensures FileIs(sb, w, inum, c)
  {
    hide Sector, FileIs;
    forall s: nat | s < LogStart(sb) ensures Sector(sb, v, s) == Sector(sb, w, s) {
      assert Image(g, sb, v)[s] == Image(g, sb, w)[s];
    }
    SectorsDetermine(sb, v, w);
    SameFile(sb, v, w, inum, c);
  }

  // ---------- filewrite ----------

  lemma {:induction false} StepsSizes(sb: Super, inum: nat, states: seq<Parts>, txs: seq<Transaction>,
                                      logs: seq<set<nat>>, j: nat)
    requires Steps(sb, inum, states, txs, logs) && j <= |logs|
    ensures |states[j].data| == |states[0].data| && (Sized(sb, states[0]) ==> Sized(sb, states[j]))
  {
    hide Sized;
    if j > 0 {
      StepsSizes(sb, inum, states, txs, logs, j - 1);
      assert StepOk(sb, inum, states[j - 1], states[j], txs[j - 1], logs[j - 1]);
    }
  }

  /** The image that mkfs builds: one bitmap block, a log of 10 sectors behind the data. */
  predicate Standard(g: Geometry, sb: Super, inum: nat) {
    Layout(sb, inum) && sb.size <= BPB && sb.nlog == 10 && g == Geometry(LogStart(sb), 10)
  }

  lemma StepLegal(g: Geometry, sb: Super, d: Disk, inum: nat, v: Parts, w: Parts, tx: Transaction, logged: set<nat>)
    requires Standard(g, sb, inum) && |d| == sb.size && Logs(sb, inum, v, w, tx, logged) && |v.data| == sb.size
    ensures Legal(g, d, tx) && |LoggedSectors(tx)| <= 7 && Carries(g, sb, v, tx, w, logged)
  {
    hide Sector, Covered;
    forall i | 0 <= i < |tx| ensures tx[i].sector in logged {
      SectorsOfLast(tx, i);
    }
    FewSectorsAreLegal(g, d, tx, logged);
  }

  /** Consecutive states, each reached from the one before by a transaction that logs what it changes. */
  ghost predicate LogSteps(sb: Super, inum: nat, states: seq<Parts>, txs: seq<Transaction>, logs: seq<set<nat>>) {
    && |states| == |logs| + 1 && |txs| == |logs|
    && forall k :: 0 <= k < |logs| ==> Logs(sb, inum, states[k], states[k + 1], txs[k], logs[k])
  }

  lemma {:induction false} LogStepsSizes(sb: Super, inum: nat, states: seq<Parts>, txs: seq<Transaction>,
                                         logs: seq<set<nat>>, j: nat)
    requires LogSteps(sb, inum, states, txs, logs) && j <= |logs|
    ensures |states[j].data| == |states[0].data|
  {
    if j > 0 {
      LogStepsSizes(sb, inum, states, txs, logs, j - 1);
      assert Logs(sb, inum, states[j - 1], states[j], txs[j - 1], logs[j - 1]);
    }
  }

  /** None of the transactions is too big. */
  lemma LogStepsLegal(g: Geometry, sb: Super, d: Disk, inum: nat, states: seq<Parts>, txs: seq<Transaction>,
                      logs: seq<set<nat>>)
    requires Standard(g, sb, inum) && LogSteps(sb, inum, states, txs, logs) && |d| == |states[0].data| == sb.size
    ensures LegalAll(g, d, txs) && Chain(g, sb, states, txs, logs)
  {
    hide Logs, Carries, Legal, Standard;
    forall j | 0 <= j < |txs| ensures Legal(g, d, txs[j]) && Carries(g, sb, states[j], txs[j], states[j + 1], logs[j]) {
      LogStepsSizes(sb, inum, states, txs, logs, j);
      StepLegal(g, sb, d, inum, states[j], states[j + 1], txs[j], logs[j]);
    }
  }

  /** None of filewrite's transactions is too big. */
  lemma FilewriteLegal(g: Geometry, sb: Super, d: Disk, inum: nat, states: seq<Parts>, txs: seq<Transaction>,
                       logs: seq<set<nat>>)
    requires Standard(g, sb, inum) && Steps(sb, inum, states, txs, logs) && |d| == |states[0].data| == sb.size
    ensures LegalAll(g, d, txs) && Chain(g, sb, states, txs, logs)
  {
    hide Logs, Chain, LegalAll, Standard;
    assert forall k :: 0 <= k < |logs| ==> StepOk(sb, inum, states[k], states[k + 1], txs[k], logs[k]);
    LogStepsLegal(g, sb, d, inum, states, txs, logs);
  }

  /** The home sectors m are those of some state of the file layer, with all fields in range. */
  ghost predicate Decodes(g: Geometry, sb: Super, m: map<nat, Block>) {
    exists v :: Sized(sb, v) && Image(g, sb, v) == m
  }

  lemma ImageDecodes(g: Geometry, sb: Super, v: Parts)
    requires Sized(sb, v)
    ensures Decodes(g, sb, Image(g, sb, v))
  {
    hide Image, Sized;
  }

  /** What a disk with home sectors m says: they can be decoded, and whoever does finds the text in file inum, and
      every other file as it was in v0. */
  ghost predicate Shows(g: Geometry, sb: Super, m: map<nat, Block>, v0: Parts, inum: nat, text: seq<byte>) {
    && Decodes(g, sb, m)
    && forall v :: Sized(sb, v) && Image(g, sb, v) == m ==> FileIs(sb, v, inum, text) && OthersHold(sb, v0, v, inum)
  }

  /** A WRITE CUT BY A CRASH: the machine stops after any k sector writes of a filewrite, whose
      transactions leave `states` between them. Recovery leaves the state after the chunks that had
      committed: the file holds exactly those chunks of what was to be written, in full, and every
      other file what it held. */
  lemma FilewriteCrash(g: Geometry, sb: Super, d: Disk, inum: nat, states: seq<Parts>, txs: seq<Transaction>,
                       logs: seq<set<nat>>, c: seq<byte>, off: nat, addr: seq<byte>, taken: nat, k: nat)
    requires Standard(g, sb, inum) && Steps(sb, inum, states, txs, logs) && |d| == sb.size && Sized(sb, states[0])
    requires Quiet(g, d) && HomeMap(g, d) == Image(g, sb, states[0])
    requires Prefixes(sb, states, inum, c, off, addr, taken) && Bystanders(sb, states, inum)
    ensures LegalAll(g, d, txs) && GoodHead(g, AfterRun(g, d, txs, k))
    ensures var j := CommittedBy(txs, k);
            && RecoveredMap(g, AfterRun(g, d, txs, k)) == Image(g, sb, states[j])
            && Shows(g, sb, Image(g, sb, states[j]), states[0], inum, Splice(c, off, addr[..Min(j * CHUNK, taken)]))
  {
    hide StepOk, Chain, Image, FileIs, Shows, OthersHold;
    FilewriteLegal(g, sb, d, inum, states, txs, logs);
    RecoveredState(g, sb, d, states, txs, logs, k);
    var j := CommittedBy(txs, k);
    StepsSizes(sb, inum, states, txs, logs, j);
    StateShows(g, sb, states[0], states[j], inum, Splice(c, off, addr[..Min(j * CHUNK, taken)]));
  }

  lemma StateShows(g: Geometry, sb: Super, v0: Parts, v: Parts, inum: nat, text: seq<byte>)
    requires Standard(g, sb, inum) && Sized(sb, v) && FileIs(sb, v, inum, text) && OthersHold(sb, v0, v, inum)
    ensures Shows(g, sb, Image(g, sb, v), v0, inum, text)
  {
    hide Image, FileIs, Sized;
    ImageDecodes(g, sb, v);
    forall w | Sized(sb, w) && Image(g, sb, w) == Image(g, sb, v)
      ensures FileIs(sb, w, inum, text) && OthersHold(sb, v0, w, inum)
    {
      SizedCount(sb, v, w);
      RecoveredFile(g, sb, v, w, inum, text);
      forall i: nat | i < |v0.inodes| && i != inum ensures FileIs(sb, w, i, FileText(v0, i)) {
        RecoveredFile(g, sb, v, w, i, FileText(v0, i));
      }
    }
  }

  lemma SizedCount(sb: Super, v: Parts, w: Parts)
    requires Sized(sb, v) && Sized(sb, w)
    ensures |v.inodes| == |w.inodes|
  {
  }

  // ---------- the same on the code of cache and log ----------

  /** What bread returns is the image of v; no transaction is active and no buffer is busy. */
  ghost predicate Holds(log: L.Log, sb: Super, v: Parts)
    reads log, log.bc
  {
    log.Ready() && !log.busy && log.Idle() && |log.bc.disk| == sb.size && log.View() == Image(log.g, sb, v)
  }

  /** A transaction of the file layer run through cache and log: what bread returned before was the
      image of v, what it returns after is the image of w. A panic leaves a prefix of its sector
      writes, and there is none as long as no buffer is busy and fewer sectors than buffers are logged. */
  method RunState(log: L.Log, sb: Super, tx: Transaction, ghost v: Parts, ghost w: Parts, ghost logged: set<nat>)
    returns (ok: bool)
    requires log.Ready() && !log.busy && log.View() == Image(log.g, sb, v)
    requires Carries(log.g, sb, v, tx, w, logged) && Legal(log.g, log.bc.disk, tx)
    modifies log, log.bc
    ensures ok ==> log.Ready() && !log.busy && log.View() == Image(log.g, sb, w)
    ensures ok ==> log.bc.writes == old(log.bc.writes) + TransactionWrites(log.g, old(log.bc.disk), tx)
    ensures ok ==> log.bc.disk == ApplyAll(old(log.bc.disk), TransactionWrites(log.g, old(log.bc.disk), tx))
    ensures !ok ==> L.PrefixAdded(old(log.bc.writes), log.bc.writes, TransactionWrites(log.g, old(log.bc.disk), tx))
    ensures old(log.Idle()) ==> (ok <==> |LoggedSectors(tx)| < BufferCache.NBUF) && (ok ==> log.Idle())
  {
    hide Image, Carries, Legal, Effect, LoggedSectors, TransactionWrites, L.PrefixAdded, Overlay, Quiet;
    CarriesImage(log.g, sb, v, tx, w, logged);
    ghost var d0, w0 := log.bc.disk, log.bc.writes;
    ok := log.RunTransaction(tx);
    if ok {
      DiskOfWrites(log, d0, w0, TransactionWrites(log.g, d0, tx));
    }
  }

  /** The disk is what the writes since boot make it. */
  lemma DiskOfWrites(log: L.Log, d0: Disk, w0: seq<Write>, ws: seq<Write>)
    requires log.Ready() && InRange(log.bc.boot, w0) && d0 == ApplyAll(log.bc.boot, w0) && InRange(d0, ws)
    requires log.bc.writes == w0 + ws
    ensures log.bc.disk == ApplyAll(d0, ws)
  {
    hide ApplyAll, Quiet, L.Coherent, L.AllPinned, BufferCache.Bcache.RingOk;
    ApplyConcat(log.bc.boot, w0, ws);
  }

  /** Where a filewrite on the log stands: the sector writes so far are those of the transactions so far. */
  ghost predicate RunsOn(log: L.Log, d0: Disk, w0: seq<Write>, txs: seq<Transaction>)
    reads log, log.bc
  {
    && Quiet(log.g, d0) && LegalAll(log.g, d0, txs)
    && log.bc.disk == ApplyAll(d0, RunWrites(log.g, d0, txs)) && log.bc.writes == w0 + RunWrites(log.g, d0, txs)
  }

  /** The last of the transactions, committed. */
  method CommitLast(log: L.Log, sb: Super, inum: nat, ghost d0: Disk, ghost w0: seq<Write>, ghost v: Parts,
                    ghost w: Parts, ghost txs: seq<Transaction>, tx: Transaction, ghost logged: set<nat>)
    requires Standard(log.g, sb, inum) && Holds(log, sb, v) && Logs(sb, inum, v, w, tx, logged)
             && |v.data| == sb.size == |d0|
    requires RunsOn(log, d0, w0, txs)
    modifies log, log.bc
    ensures Holds(log, sb, w) && RunsOn(log, d0, w0, txs + [tx])
  {
    hide Standard, Logs, Image, Carries, Legal, LoggedSectors, TransactionWrites, RunWrites, Quiet, Overlay, ApplyAll,
         LegalAll;
    StepLegal(log.g, sb, log.bc.disk, inum, v, w, tx, logged);
    StepLegal(log.g, sb, d0, inum, v, w, tx, logged);
    RunMore(log.g, d0, txs, tx);
    ghost var ws, d1 := RunWrites(log.g, d0, txs), log.bc.disk;
    var ok := RunState(log, sb, tx, v, w, logged);
    assert w0 + ws + TransactionWrites(log.g, d1, tx) == w0 + (ws + TransactionWrites(log.g, d1, tx));
  }

  /** filewrite with its transactions run through cache and log. Afterwards bread returns the image of
      the file layer's state, every sector write belongs to one of the transactions, and after any
      number of them the disk recovers to the chunks that had committed. Fails only by the panic
      "balloc: out of blocks", exactly when fewer blocks are free than the bytes taken need; then the
      log_write calls of the chunk that met it are on the disk as well, and change nothing. */
  method FilewriteOnLog(f: OpenFile, log: L.Log, addr: seq<byte>)
    returns (r: int, ok: bool, ghost txs: seq<Transaction>, ghost states: seq<Parts>)
    requires f.fs.Valid(f.ip) && f.fs.Synced(f.ip) && |addr| < UINT_LIMIT && Sized(f.fs.sb, f.fs.Disk())
    requires Standard(log.g, f.fs.sb, f.ip.inum) && Holds(log, f.fs.sb, f.fs.Disk())
    modifies f, f.fs, f.ip`d, log, log.bc
    ensures ok ==> f.fs.Valid(f.ip) && f.fs.Synced(f.ip) && Holds(log, f.fs.sb, f.fs.Disk())
    ensures ok && f.writable && old(f.off) <= old(f.ip.d.size) ==>
              && Contents(f.ip.d, f.fs.data)
                 == Splice(old(Contents(f.ip.d, f.fs.data)), old(f.off), addr[..Taken(old(f.off), |addr|, 0)])
              && r == if old(f.off) + |addr| <= MAXFILE * BSIZE || addr == [] then |addr| else -1
    ensures ok && (!f.writable || old(f.off) > old(f.ip.d.size)) ==>
              && Contents(f.ip.d, f.fs.data) == old(Contents(f.ip.d, f.fs.data))
              && r == if f.writable && addr == [] then 0 else -1
    ensures ok <==> !f.writable || old(f.off) > old(f.ip.d.size)
                    || MissingFor(old(f.ip.d), old(f.fs.data), old(f.off), Taken(old(f.off), |addr|, 0))
                      <= FreeCount(old(f.fs.bits))
    ensures ok ==> RunsOn(log, old(log.bc.disk), old(log.bc.writes), txs)
    ensures ok && f.writable && old(f.off) <= old(f.ip.d.size) ==>
              AllCutsShow(log.g, f.fs.sb, old(log.bc.disk), txs, [], old(f.fs.Disk()), f.ip.inum,
                          old(Contents(f.ip.d, f.fs.data)), old(f.off), addr, Taken(old(f.off), |addr|, 0))
    ensures !ok ==> StopsIn(log, old(log.bc.disk), old(log.bc.writes), txs, f.fs.calls)
    ensures !ok ==> AllCutsShow(log.g, f.fs.sb, old(log.bc.disk), txs, f.fs.calls, old(f.fs.Disk()), f.ip.inum,
                                old(Contents(f.ip.d, f.fs.data)), old(f.off), addr, Taken(old(f.off), |addr|, 0))
  {
    hide Owned, Splice, Bytes, Covered, FileIs, Small, StepOk, Logs, OthersHold, Image, Quiet, RunWrites, LegalAll,
         Standard, Taken, Sized, Overlay, ApplyAll, AllCutsShow, MissingFor, FreeCount, Paid, Prefixes, Bystanders,
         StopsIn;
    ghost var logs: seq<set<nat>> := [];
    var calls: seq<Transaction> := [];
    states, txs, ok := [f.fs.Disk()], [], true;
    RunsNone(log);
    if !f.writable {
      return -1, true, txs, states;
    }
    f.fs.Unchanged(f.ip);
    ghost var c, off0, tab0, data0 := Contents(f.ip.d, f.fs.data), f.off, f.fs.inodes, f.fs.data;
    ghost var d0, w0, v0 := log.bc.disk, log.bc.writes, f.fs.Disk();
    f.Starts(addr, c);
    ViewIsHome(log);
    SizedData(f.fs.sb, v0);
    var i, done := 0, false;
    while i < |addr| && !done
      invariant ok && f.Writing(addr, i, done, c, off0, tab0, data0, states, calls, logs) && states[0] == v0
      invariant Holds(log, f.fs.sb, f.fs.Disk()) && RunsOn(log, d0, w0, calls)
      decreases |addr| - i, !done
    {
      ghost var v, before := f.fs.Disk(), calls;
      i, done, ok, calls, states, logs := f.NextChunk(addr, i, c, off0, tab0, data0, states, calls, logs);
      if !ok {
        StepsSizes(f.fs.sb, f.ip.inum, states, calls, logs, |logs|);
        StepLogs(f.fs.sb, f.ip.inum, v, f.fs.Disk(), f.fs.calls, f.fs.logged);
        Abandon(log, f.fs.sb, f.ip.inum, d0, w0, v, f.fs.Disk(), calls, f.fs.calls, f.fs.logged);
        AllCuts(log.g, f.fs.sb, d0, f.ip.inum, states, calls, logs, f.fs.calls, c, off0, addr, Taken(off0, |addr|, 0));
        txs, r := calls, -1;
        return;
      }
      var n := |calls| - 1;
      LastStep(f.fs.sb, f.ip.inum, states, calls, logs, n);
      StepsSizes(f.fs.sb, f.ip.inum, states, calls, logs, n);
      CommitLast(log, f.fs.sb, f.ip.inum, d0, w0, v, f.fs.Disk(), before, calls[n], logs[n]);
      assert before + [calls[n]] == calls;
    }
    f.Finishes(addr, i, done, c, off0, tab0, data0, states, calls, logs);
    txs := calls;
    r := if i == |addr| then |addr| else -1;
    if off0 <= |c| {
      AllCuts(log.g, f.fs.sb, d0, f.ip.inum, states, txs, logs, [], c, off0, addr, Taken(off0, |addr|, 0));
    }
  }

  /** The log_write calls of a transaction that does not get to its commit. */
  method Abandon(log: L.Log, sb: Super, inum: nat, ghost d0: Disk, ghost w0: seq<Write>, ghost v: Parts, ghost w: Parts,
                 ghost txs: seq<Transaction>, tx: Transaction, ghost logged: set<nat>)
    requires Standard(log.g, sb, inum) && Holds(log, sb, v) && Logs(sb, inum, v, w, tx, logged)
             && |v.data| == sb.size == |d0|
    requires RunsOn(log, d0, w0, txs)
    modifies log, log.bc
    ensures StopsIn(log, d0, w0, txs, tx) && Legal(log.g, d0, tx)
  {
    hide Standard, Logs, Image, Carries, Legal, LoggedSectors, TransactionWrites, RunWrites, Quiet, Overlay, ApplyAll,
         LegalAll, AppendWrites;
    StepLegal(log.g, sb, log.bc.disk, inum, v, w, tx, logged);
    StepLegal(log.g, sb, d0, inum, v, w, tx, logged);
    ghost var ws := RunWrites(log.g, d0, txs);
    var ok := log.RunUnfinished(tx);
    assert w0 + ws + AppendWrites(log.g, tx) == w0 + (ws + AppendWrites(log.g, tx));
    ApplyConcat(d0, ws, AppendWrites(log.g, tx));
  }

  /** The sector writes of the transactions txs, and of tx up to its last log_write. */
  ghost function WritesUpTo(g: Geometry, d: Disk, txs: seq<Transaction>, tx: Transaction): seq<Write>
    requires Quiet(g, d) && LegalAll(g, d, txs)
  {
    RunWrites(g, d, txs) + AppendWrites(g, tx)
  }

  /** The machine has stopped inside tx, after its log_write calls; the transactions txs had committed. */
  ghost predicate StopsIn(log: L.Log, d0: Disk, w0: seq<Write>, txs: seq<Transaction>, tx: Transaction)
    reads log, log.bc
  {
    && Quiet(log.g, d0) && LegalAll(log.g, d0, txs) && Legal(log.g, d0, tx)
       && InRange(d0, WritesUpTo(log.g, d0, txs, tx))
    && log.bc.disk == ApplyAll(d0, WritesUpTo(log.g, d0, txs, tx))
       && log.bc.writes == w0 + WritesUpTo(log.g, d0, txs, tx)
  }

  lemma LastStep(sb: Super, inum: nat, states: seq<Parts>, txs: seq<Transaction>, logs: seq<set<nat>>, n: nat)
    requires Steps(sb, inum, states, txs, logs) && |txs| == n + 1
    ensures Logs(sb, inum, states[n], states[n + 1], txs[n], logs[n])
  {
    assert StepOk(sb, inum, states[n], states[n + 1], txs[n], logs[n]);
    hide Logs;
  }

  lemma StepLogs(sb: Super, inum: nat, v: Parts, w: Parts, tx: Transaction, logged: set<nat>)
    requires StepOk(sb, inum, v, w, tx, logged)
    ensures Logs(sb, inum, v, w, tx, logged)
  {
  }

  lemma SizedData(sb: Super, v: Parts)
    requires Sized(sb, v)
    ensures |v.data| == sb.size
  {
  }

  /** Between transactions the home sectors are what bread returns. */
  lemma ViewIsHome(log: L.Log)
    requires log.Ready() && !log.busy
    ensures HomeMap(log.g, log.bc.disk) == log.View()
  {
    hide L.Coherent, L.AllPinned, BufferCache.Bcache.RingOk, GoodHead, ApplyAll, Overlay, HomeMap;
    EmptyOverlay(log.g, log.bc.disk);
  }

  lemma RunsNone(log: L.Log)
    requires log.Ready()
    ensures RunsOn(log, log.bc.disk, log.bc.writes, [])
  {
    hide L.Coherent, L.AllPinned, BufferCache.Bcache.RingOk, GoodHead;
  }

  /** The disk after the first k of those sector writes recovers to the chunks committed by then. */
  ghost predicate CutShows(g: Geometry, sb: Super, d: Disk, txs: seq<Transaction>, tx: Transaction, k: nat, v0: Parts,
                           inum: nat, c: seq<byte>, off: nat, addr: seq<byte>, taken: nat)
  {
    && Quiet(g, d) && LegalAll(g, d, txs) && k <= |WritesUpTo(g, d, txs, tx)| && off <= |c| && taken <= |addr|
    && InRange(d, WritesUpTo(g, d, txs, tx)[..k])
    && var d' := ApplyAll(d, WritesUpTo(g, d, txs, tx)[..k]);
       && Fits(g, d') && GoodHead(g, d')
       && Shows(g, sb, RecoveredMap(g, d'), v0, inum, Splice(c, off, addr[..Min(CommittedBy(txs, k) * CHUNK, taken)]))
  }

  ghost predicate AllCutsShow(g: Geometry, sb: Super, d: Disk, txs: seq<Transaction>, tx: Transaction, v0: Parts,
                              inum: nat, c: seq<byte>, off: nat, addr: seq<byte>, taken: nat)
  {
    && Quiet(g, d) && LegalAll(g, d, txs)
    && forall k: nat :: k <= |WritesUpTo(g, d, txs, tx)| ==>
       CutShows(g, sb, d, txs, tx, k, v0, inum, c, off, addr, taken)
  }

  lemma AllCuts(g: Geometry, sb: Super, d: Disk, inum: nat, states: seq<Parts>, txs: seq<Transaction>,
                logs: seq<set<nat>>, tx: Transaction, c: seq<byte>, off: nat, addr: seq<byte>, taken: nat)
    requires Standard(g, sb, inum) && Steps(sb, inum, states, txs, logs) && |d| == sb.size && Sized(sb, states[0])
    requires Quiet(g, d) && HomeMap(g, d) == Image(g, sb, states[0]) && LegalAll(g, d, txs) && Legal(g, d, tx)
    requires Prefixes(sb, states, inum, c, off, addr, taken) && Bystanders(sb, states, inum)
    ensures AllCutsShow(g, sb, d, txs, tx, states[0], inum, c, off, addr, taken)
  {
    hide Standard, StepOk, Sized, Image, LegalAll, Legal, RunWrites, Bystanders, Prefixes, Quiet, CutShows;
    forall k: nat | k <= |WritesUpTo(g, d, txs, tx)|
      ensures CutShows(g, sb, d, txs, tx, k, states[0], inum, c, off, addr, taken)
    {
      if k <= |RunWrites(g, d, txs)| {
        CutIs(g, sb, d, inum, states, txs, logs, tx, c, off, addr, taken, k);
      } else {
        CutInside(g, sb, d, inum, states, txs, logs, tx, c, off, addr, taken, k);
      }
    }
  }

  lemma CutIs(g: Geometry, sb: Super, d: Disk, inum: nat, states: seq<Parts>, txs: seq<Transaction>,
              logs: seq<set<nat>>, tx: Transaction, c: seq<byte>, off: nat, addr: seq<byte>, taken: nat, k: nat)
    requires Standard(g, sb, inum) && Steps(sb, inum, states, txs, logs) && |d| == sb.size && Sized(sb, states[0])
    requires Quiet(g, d) && HomeMap(g, d) == Image(g, sb, states[0]) && LegalAll(g, d, txs)
             && k <= |RunWrites(g, d, txs)|
    requires Prefixes(sb, states, inum, c, off, addr, taken) && Bystanders(sb, states, inum)
    ensures CutShows(g, sb, d, txs, tx, k, states[0], inum, c, off, addr, taken)
  {
    hide Standard, Steps, Sized, Image, LegalAll, RunWrites, Bystanders, Shows, GoodHead, Splice, AppendWrites,
         WritesUpTo, Quiet, HomeMap, RecoveredMap, AfterRun, ApplyAll, InRange, Fits, CommittedBy;
    FilewriteCrash(g, sb, d, inum, states, txs, logs, c, off, addr, taken, k);
    CutDisk(g, d, txs, tx, k);
    PrefixesRange(sb, states, inum, c, off, addr, taken);
  }

  lemma PrefixesRange(sb: Super, states: seq<Parts>, inum: nat, c: seq<byte>, off: nat, addr: seq<byte>, i: nat)
    requires Prefixes(sb, states, inum, c, off, addr, i)
    ensures off <= |c| && i <= |addr|
  {
  }

  lemma CutDisk(g: Geometry, d: Disk, txs: seq<Transaction>, tx: Transaction, k: nat)
    requires Quiet(g, d) && LegalAll(g, d, txs) && k <= |RunWrites(g, d, txs)|
    ensures k <= |WritesUpTo(g, d, txs, tx)| && InRange(d, WritesUpTo(g, d, txs, tx)[..k])
    ensures ApplyAll(d, WritesUpTo(g, d, txs, tx)[..k]) == AfterRun(g, d, txs, k) && Fits(g, AfterRun(g, d, txs, k))
  {
    hide LegalAll, RunWrites, AppendWrites, ApplyAll, GoodHead, AfterRun;
    AfterRunIs(g, d, txs, k);
    assert WritesUpTo(g, d, txs, tx)[..k] == RunWrites(g, d, txs)[..k];
  }

  /** Among the log_write calls of a transaction that does not commit, the cut changes nothing. */
  lemma CutInside(g: Geometry, sb: Super, d: Disk, inum: nat, states: seq<Parts>, txs: seq<Transaction>,
                  logs: seq<set<nat>>, tx: Transaction, c: seq<byte>, off: nat, addr: seq<byte>, taken: nat, k: nat)
    requires Standard(g, sb, inum) && Steps(sb, inum, states, txs, logs) && |d| == sb.size && Sized(sb, states[0])
    requires Quiet(g, d) && HomeMap(g, d) == Image(g, sb, states[0]) && LegalAll(g, d, txs) && Legal(g, d, tx)
    requires |RunWrites(g, d, txs)| < k <= |WritesUpTo(g, d, txs, tx)|
    requires Prefixes(sb, states, inum, c, off, addr, taken) && Bystanders(sb, states, inum)
    ensures CutShows(g, sb, d, txs, tx, k, states[0], inum, c, off, addr, taken)
  {
    hide Standard, Steps, Sized, Image, LegalAll, Legal, RunWrites, Bystanders, Shows, Splice, AppendWrites,
         CommittedBy, HomeMap, Overlay, ApplyAll, Quiet, RecoveredMap;
    var n := |RunWrites(g, d, txs)|;
    CutIs(g, sb, d, inum, states, txs, logs, tx, c, off, addr, taken, n);
    assert WritesUpTo(g, d, txs, tx)[..n] == RunWrites(g, d, txs);
    StoppedRecovers(g, d, txs, tx, k);
    AllCommitted(g, d, txs, n);
    AllCommitted(g, d, txs, k);
  }
}
