/** Crash safety over whole histories: any run of transactions, cut after any sector write, any
    number of recoveries that are themselves cut short, and any number of such boots in a row. */
module LogRuns {
  import opened Blocks
  import opened LogSpec

  ghost predicate LegalAll(g: Geometry, d: Disk, txs: seq<Transaction>) {
    forall i :: 0 <= i < |txs| ==> Legal(g, d, txs[i])
  }

  /** Legality only looks at the number of sectors. */
  lemma {:induction false} LegalFrame(g: Geometry, d: Disk, d': Disk, tx: Transaction)
    requires |d| == |d'| && Legal(g, d, tx)
    ensures Legal(g, d', tx)
  {
    if tx != [] {
      LegalFrame(g, d, d', tx[..|tx| - 1]);
    }
  }

  lemma LegalAllFrame(g: Geometry, d: Disk, d': Disk, txs: seq<Transaction>)
    requires |d| == |d'| && LegalAll(g, d, txs)
    ensures LegalAll(g, d', txs)
  {
    forall i | 0 <= i < |txs| ensures Legal(g, d', txs[i]) {
      LegalFrame(g, d, d', txs[i]);
    }
  }

  /** The disk after a transaction that ran to its end. */
  ghost function AfterTransaction(g: Geometry, d: Disk, tx: Transaction): (d': Disk)
    requires Quiet(g, d) && Legal(g, d, tx)
    ensures |d'| == |d| && Quiet(g, d')
  {
    var ws := TransactionWrites(g, d, tx);
    TransactionCut(g, d, tx, |ws|);
    assert ws[..|ws|] == ws;
    ApplyAll(d, ws)
  }

  /** The disk after the first k sector writes of a run of transactions (after all of them when
      there are no more than k). */
  ghost function AfterRun(g: Geometry, d: Disk, txs: seq<Transaction>, k: nat): (d': Disk)
    requires Quiet(g, d) && LegalAll(g, d, txs)
    ensures |d'| == |d|
    decreases |txs|
  {
    if txs == [] then d
    else
      var ws := TransactionWrites(g, d, txs[0]);
      if k < |ws| then ApplyAll(d, ws[..k])
      else
        var d1 := AfterTransaction(g, d, txs[0]);
        LegalAllFrame(g, d, d1, txs[1..]);
        AfterRun(g, d1, txs[1..], k - |ws|)
  }

  /** All sector writes of a run, in order. */
  ghost function RunWrites(g: Geometry, d: Disk, txs: seq<Transaction>): (ws: seq<Write>)
    requires Quiet(g, d) && LegalAll(g, d, txs)
    ensures InRange(d, ws)
    decreases |txs|
  {
    if txs == [] then []
    else
      var d1 := AfterTransaction(g, d, txs[0]);
      LegalAllFrame(g, d, d1, txs[1..]);
      TransactionWrites(g, d, txs[0]) + RunWrites(g, d1, txs[1..])
  }

  /** Cutting the run after k writes is applying the first k of them. */
  lemma {:induction false} AfterRunIs(g: Geometry, d: Disk, txs: seq<Transaction>, k: nat)
    requires Quiet(g, d) && LegalAll(g, d, txs) && k <= |RunWrites(g, d, txs)|
    ensures AfterRun(g, d, txs, k) == ApplyAll(d, RunWrites(g, d, txs)[..k])
    decreases |txs|
  {
    hide GoodHead, Word, Legal, TransactionWrites;
    if txs != [] {
      var ws := TransactionWrites(g, d, txs[0]);
      var d1 := AfterTransaction(g, d, txs[0]);
      LegalAllFrame(g, d, d1, txs[1..]);
      var vs := RunWrites(g, d1, txs[1..]);
      if k < |ws| {
        assert (ws + vs)[..k] == ws[..k];
      } else {
        AfterRunIs(g, d1, txs[1..], k - |ws|);
        ApplyCut(d, ws, vs, k - |ws|);
      }
    }
  }

  /** One more transaction at the end of a run. */
  lemma {:induction false} RunMore(g: Geometry, d: Disk, txs: seq<Transaction>, tx: Transaction)
    requires Quiet(g, d) && LegalAll(g, d, txs) && Legal(g, d, tx)
    ensures LegalAll(g, d, txs + [tx])
    ensures var ws := RunWrites(g, d, txs);
            var d' := ApplyAll(d, ws);
            && Quiet(g, d') && Legal(g, d', tx)
            && RunWrites(g, d, txs + [tx]) == ws + TransactionWrites(g, d', tx)
            && ApplyAll(d', TransactionWrites(g, d', tx)) == ApplyAll(d, RunWrites(g, d, txs + [tx]))
    decreases |txs|
  {
    hide GoodHead, Word, Legal, TransactionWrites, ApplyAll;
    if txs == [] {
      RunOne(g, d, tx);
    } else {
      var d1 := AfterTransaction(g, d, txs[0]);
      LegalAllFrame(g, d, d1, txs[1..]);
      LegalFrame(g, d, d1, tx);
      RunMore(g, d1, txs[1..], tx);
      RunTail(g, d, txs, tx);
    }
  }

  lemma RunOne(g: Geometry, d: Disk, tx: Transaction)
    requires Quiet(g, d) && Legal(g, d, tx)
    ensures LegalAll(g, d, [tx]) && RunWrites(g, d, []) == [] && ApplyAll(d, []) == d
    ensures RunWrites(g, d, [tx]) == TransactionWrites(g, d, tx) && [] + [tx] == [tx]
  {
    hide GoodHead, Word, Legal, TransactionWrites;
    assert [tx][1..] == [];
    assert TransactionWrites(g, d, tx) + [] == TransactionWrites(g, d, tx);
  }

  lemma RunTail(g: Geometry, d: Disk, txs: seq<Transaction>, tx: Transaction)
    requires Quiet(g, d) && LegalAll(g, d, txs + [tx]) && LegalAll(g, d, txs) && txs != []
    ensures var d1 := AfterTransaction(g, d, txs[0]);
            var first := TransactionWrites(g, d, txs[0]);
            && LegalAll(g, d1, txs[1..] + [tx]) && LegalAll(g, d1, txs[1..])
            && RunWrites(g, d, txs + [tx]) == first + RunWrites(g, d1, txs[1..] + [tx])
            && RunWrites(g, d, txs) == first + RunWrites(g, d1, txs[1..])
            && ApplyAll(d, RunWrites(g, d, txs)) == ApplyAll(d1, RunWrites(g, d1, txs[1..]))
            && ApplyAll(d, RunWrites(g, d, txs + [tx])) == ApplyAll(d1, RunWrites(g, d1, txs[1..] + [tx]))
  {
    hide GoodHead, Word, Legal, TransactionWrites;
    var d1, first := AfterTransaction(g, d, txs[0]), TransactionWrites(g, d, txs[0]);
    assert (txs + [tx])[1..] == txs[1..] + [tx];
    LegalAllFrame(g, d, d1, txs + [tx]);
    LegalAllFrame(g, d, d1, txs);
    ApplyConcat(d, first, RunWrites(g, d1, txs[1..]));
    ApplyConcat(d, first, RunWrites(g, d1, txs[1..] + [tx]));
  }

  /** How many of the transactions have their commit header among the first k writes. */
  ghost function CommittedBy(txs: seq<Transaction>, k: nat): (j: nat)
    ensures j <= |txs|
  {
    if txs == [] then 0
    else
      var w := if txs[0] == [] then 0 else |txs[0]| + |LoggedSectors(txs[0])| + 2;
      if k >= w then 1 + CommittedBy(txs[1..], k - w)
      else if k > |txs[0]| then 1 else 0
  }

  lemma {:induction false} AllCommitted(g: Geometry, d: Disk, txs: seq<Transaction>, k: nat)
    requires Quiet(g, d) && LegalAll(g, d, txs) && k >= |RunWrites(g, d, txs)|
    ensures CommittedBy(txs, k) == |txs|
    decreases |txs|
  {
    hide GoodHead, Word, Legal, ApplyAll, TransactionWrites, AfterTransaction, LoggedSectors, HomeMap;
    if txs != [] {
      var d1 := AfterTransaction(g, d, txs[0]);
      LegalAllFrame(g, d, d1, txs[1..]);
      AllCommitted(g, d1, txs[1..], k - |TransactionWrites(g, d, txs[0])|);
    }
  }

  /** A run that stops among the log_write calls of one more transaction recovers as if that had not begun. */
  lemma StoppedRecovers(g: Geometry, d: Disk, txs: seq<Transaction>, tx: Transaction, k: nat)
    requires Quiet(g, d) && LegalAll(g, d, txs) && Legal(g, d, tx)
    requires |RunWrites(g, d, txs)| <= k <= |RunWrites(g, d, txs) + AppendWrites(g, tx)|
    ensures var ws := RunWrites(g, d, txs) + AppendWrites(g, tx);
            && InRange(d, ws) && InRange(d, ws[..k])
            && var d1, d' := ApplyAll(d, RunWrites(g, d, txs)), ApplyAll(d, ws[..k]);
               Fits(g, d1) && GoodHead(g, d1) && Fits(g, d') && GoodHead(g, d')
                 && RecoveredMap(g, d') == RecoveredMap(g, d1)
  {
    hide Word, Legal, TransactionWrites, ApplyAll, HomeMap, Overlay, RunWrites, LegalAll, LoggedSectors;
    RunMore(g, d, txs, tx);
    var ws, vs := RunWrites(g, d, txs), AppendWrites(g, tx);
    var d1, m := ApplyAll(d, ws), k - |ws|;
    CutInAppends(g, d1, tx, m);
    LegalPrefix(g, d1, tx, m);
    Appends(g, d1, tx);
    ApplyCut(d, ws, vs, m);
    EmptyOverlay(g, d1);
  }

  /** The sector map after a run of transactions, one after the other. */
  ghost function EffectAll(m: map<nat, Block>, txs: seq<Transaction>): map<nat, Block>
    decreases |txs|
  {
    if txs == [] then m else EffectAll(Effect(m, txs[0]), txs[1..])
  }

  lemma {:induction false} EffectConcat(m: map<nat, Block>, a: seq<Transaction>, b: seq<Transaction>)
    ensures EffectAll(m, a + b) == EffectAll(EffectAll(m, a), b)
    decreases |a|
  {
    if a == [] {
      assert a + b == b;
    } else {
      assert (a + b)[1..] == a[1..] + b;
      EffectConcat(Effect(m, a[0]), a[1..], b);
    }
  }

  lemma HomeAfterTransaction(g: Geometry, d: Disk, tx: Transaction)
    requires Quiet(g, d) && Legal(g, d, tx)
    ensures HomeMap(g, AfterTransaction(g, d, tx)) == Effect(HomeMap(g, d), tx)
  {
    var ws := TransactionWrites(g, d, tx);
    TransactionCut(g, d, tx, |ws|);
    assert ws[..|ws|] == ws;
  }

  lemma EffectAfterFirst(m: map<nat, Block>, txs: seq<Transaction>, k: nat, w: nat)
    requires txs != [] && w == if txs[0] == [] then 0 else |txs[0]| + |LoggedSectors(txs[0])| + 2
    requires w <= k
    ensures EffectAll(m, txs[..CommittedBy(txs, k)])
            == EffectAll(Effect(m, txs[0]), txs[1..][..CommittedBy(txs[1..], k - w)])
  {
    var j := CommittedBy(txs[1..], k - w);
    assert txs[..1 + j][1..] == txs[1..][..j];
  }

  lemma EffectInFirst(m: map<nat, Block>, txs: seq<Transaction>, k: nat)
    requires txs != [] && txs[0] != [] && k < |txs[0]| + |LoggedSectors(txs[0])| + 2
    ensures EffectAll(m, txs[..CommittedBy(txs, k)]) == if k <= |txs[0]| then m else Effect(m, txs[0])
  {
    if k > |txs[0]| {
      assert txs[..1] == [txs[0]];
    }
  }

  lemma NoRun(g: Geometry, d: Disk, txs: seq<Transaction>, k: nat)
    requires Quiet(g, d) && txs == []
    ensures GoodHead(g, d) && RecoveredMap(g, d) == EffectAll(HomeMap(g, d), txs[..CommittedBy(txs, k)])
  {
    EmptyOverlay(g, d);
  }

  /** CRASH ATOMICITY of a run: cut after any k of its sector writes, the home sectors that
      recovery produces are those of the transactions whose commit header had reached the disk,
      applied in order and in full, and of no other. */
  lemma {:induction false} RunCut(g: Geometry, d: Disk, txs: seq<Transaction>, k: nat)
    requires Quiet(g, d) && LegalAll(g, d, txs)
    ensures GoodHead(g, AfterRun(g, d, txs, k))
    ensures RecoveredMap(g, AfterRun(g, d, txs, k)) == EffectAll(HomeMap(g, d), txs[..CommittedBy(txs, k)])
    decreases |txs|
  {
    hide GoodHead, RecoveredMap, Word, HomeMap, Overlay, ApplyAll, Effect, TransactionWrites, AfterTransaction,
         LoggedSectors, Legal, EffectAll, CommittedBy;
    if txs == [] {
      NoRun(g, d, txs, k);
    } else {
      var w := |TransactionWrites(g, d, txs[0])|;
      if k < w {
        TransactionCut(g, d, txs[0], k);
        EffectInFirst(HomeMap(g, d), txs, k);
      } else {
        var d1 := AfterTransaction(g, d, txs[0]);
        LegalAllFrame(g, d, d1, txs[1..]);
        RunCut(g, d1, txs[1..], k - w);
        HomeAfterTransaction(g, d, txs[0]);
        EffectAfterFirst(HomeMap(g, d), txs, k, w);
      }
    }
  }

  // ---------- crashes during recovery, and whole lives of a disk ----------

  /** Recovery attempts, each cut after the given number of its writes. */
  ghost function Retry(g: Geometry, d: Disk, cuts: seq<nat>): (d': Disk)
    requires Fits(g, d) && GoodHead(g, d)
    ensures |d'| == |d| && GoodHead(g, d')
    ensures RecoveredMap(g, d') == RecoveredMap(g, d)
    decreases |cuts|
  {
    if cuts == [] then d
    else
      var ws := RedoWrites(g, d, HeadOf(d[g.start]));
      var k := if cuts[0] < |ws| then cuts[0] else |ws|;
      RecoveryCut(g, d, HeadOf(d[g.start]), k);
      Retry(g, ApplyAll(d, ws[..k]), cuts[1..])
  }

  /** A recovery that runs to its end. */
  ghost function Recover(g: Geometry, d: Disk): (d': Disk)
    requires Fits(g, d) && GoodHead(g, d)
    ensures |d'| == |d| && Quiet(g, d')
    ensures HomeMap(g, d') == RecoveredMap(g, d)
  {
    var ws := RedoWrites(g, d, HeadOf(d[g.start]));
    RecoveryCut(g, d, HeadOf(d[g.start]), |ws|);
    assert ws[..|ws|] == ws;
    ApplyAll(d, ws)
  }

  /** One boot: recoveries cut short, one that completes, then transactions up to a crash after
      `cut` sector writes. */
  datatype Boot = Boot(retries: seq<nat>, txs: seq<Transaction>, cut: nat)

  ghost predicate LegalBoots(g: Geometry, d: Disk, boots: seq<Boot>) {
    forall i :: 0 <= i < |boots| ==> LegalAll(g, d, boots[i].txs)
  }

  ghost function AfterBoot(g: Geometry, d: Disk, b: Boot): (d': Disk)
    requires Fits(g, d) && GoodHead(g, d) && LegalAll(g, d, b.txs)
    ensures |d'| == |d|
  {
    var up := Recover(g, Retry(g, d, b.retries));
    LegalAllFrame(g, d, up, b.txs);
    AfterRun(g, up, b.txs, b.cut)
  }

  lemma BootCut(g: Geometry, d: Disk, b: Boot)
    requires Fits(g, d) && GoodHead(g, d) && LegalAll(g, d, b.txs)
    ensures GoodHead(g, AfterBoot(g, d, b))
    ensures RecoveredMap(g, AfterBoot(g, d, b))
            == EffectAll(RecoveredMap(g, d), b.txs[..CommittedBy(b.txs, b.cut)])
  {
    var up := Recover(g, Retry(g, d, b.retries));
    LegalAllFrame(g, d, up, b.txs);
    RunCut(g, up, b.txs, b.cut);
  }

  ghost function AfterBoots(g: Geometry, d: Disk, boots: seq<Boot>): (d': Disk)
    requires Fits(g, d) && GoodHead(g, d) && LegalBoots(g, d, boots)
    ensures |d'| == |d| && GoodHead(g, d')
    decreases |boots|
  {
    if boots == [] then d
    else
      var d1 := AfterBoot(g, d, boots[0]);
      BootCut(g, d, boots[0]);
      LegalBootsFrame(g, d, d1, boots[1..]);
      AfterBoots(g, d1, boots[1..])
  }

  lemma LegalBootsFrame(g: Geometry, d: Disk, d': Disk, boots: seq<Boot>)
    requires |d| == |d'| && LegalBoots(g, d, boots)
    ensures LegalBoots(g, d', boots)
  {
    forall i | 0 <= i < |boots| ensures LegalAll(g, d', boots[i].txs) {
      LegalAllFrame(g, d, d', boots[i].txs);
    }
  }

  /** The transactions that were committed, over all boots and in order. */
  ghost function Survivors(boots: seq<Boot>): seq<Transaction> {
    if boots == [] then []
    else boots[0].txs[..CommittedBy(boots[0].txs, boots[0].cut)] + Survivors(boots[1..])
  }

  /** DURABILITY AND ATOMICITY over the life of a disk: after any number of boots, each ended by a
      crash at any sector write, with any number of interrupted recoveries in between, the next
      complete recovery produces exactly the committed transactions applied in order. */
  lemma {:induction false} LifeOfADisk(g: Geometry, d: Disk, boots: seq<Boot>)
    requires Fits(g, d) && GoodHead(g, d) && LegalBoots(g, d, boots)
    ensures HomeMap(g, Recover(g, AfterBoots(g, d, boots))) == EffectAll(RecoveredMap(g, d), Survivors(boots))
    decreases |boots|
  {
    if boots != [] {
      var d1 := AfterBoot(g, d, boots[0]);
      BootCut(g, d, boots[0]);
      LegalBootsFrame(g, d, d1, boots[1..]);
      LifeOfADisk(g, d1, boots[1..]);
      EffectConcat(RecoveredMap(g, d), boots[0].txs[..CommittedBy(boots[0].txs, boots[0].cut)], Survivors(boots[1..]));
    }
  }
}
