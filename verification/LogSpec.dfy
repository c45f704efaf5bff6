/** The write-ahead redo log of xv6/log.c as a function on disks: which sector writes each
    operation issues, in order, and what a crash after any of them leaves behind. */
module LogSpec {
  import opened Blocks
  import opened Prelude

  const LOGSIZE := 10

  type Disk = seq<Block>

  /** Where the log lies: header at `start`, log blocks after it, `size` sectors in all. */
  datatype Geometry = Geometry(start: nat, size: nat)

  /** One synchronous, atomic sector write. */
  datatype Write = Write(sector: nat, data: Block)

  ghost predicate Fits(g: Geometry, d: Disk) {
    1 <= g.size && g.start + g.size <= |d| <= UINT_LIMIT
  }

  predicate InLog(g: Geometry, s: nat) {
    g.start <= s < g.start + g.size
  }

  /** The number of sectors one transaction may hold before log_write panics. */
  function Capacity(g: Geometry): (c: int) {
    if g.size - 1 < LOGSIZE then g.size - 1 else LOGSIZE
  }

  /** Sector numbers a header may list: distinct home sectors, no more than fit. */
  ghost predicate GoodSectors(g: Geometry, d: Disk, secs: seq<nat>) {
    && |secs| <= Capacity(g)
    && (forall i :: 0 <= i < |secs| ==> secs[i] < |d| && !InLog(g, secs[i]))
    && (forall i, j :: 0 <= i < j < |secs| ==> secs[i] != secs[j])
  }

  // ---------- the header block ----------

  /** The sector numbers listed by a header block (struct logheader). */
  function HeadOf(b: Block): (secs: seq<nat>)
    requires Word(b, 0) <= LOGSIZE
  {
    seq(Word(b, 0), i requires 0 <= i < LOGSIZE => Word(b, i + 1))
  }

  ghost predicate GoodHead(g: Geometry, d: Disk)
    requires Fits(g, d)
  {
    Word(d[g.start], 0) <= LOGSIZE && GoodSectors(g, d, HeadOf(d[g.start]))
  }

  /** A disk at rest: good header, nothing committed waiting in the log. */
  ghost predicate Quiet(g: Geometry, d: Disk) {
    Fits(g, d) && GoodHead(g, d) && HeadOf(d[g.start]) == []
  }

  /** A disk whose header block is zero, as mkfs leaves it, is at rest. */
  lemma ZeroHeaderIsQuiet(g: Geometry, d: Disk)
    requires Fits(g, d) && d[g.start] == ZeroBlock()
    ensures Quiet(g, d)
  {
    hide Word, ZeroBlock;
    WordOfZero(0);
    assert HeadOf(d[g.start]) == [];
  }

  /** The header block after write_head has stored the count and the first k sectors;
      entries beyond the count keep their stale contents. */
  function PutHead(b: Block, secs: seq<nat>, k: nat): Block
    requires k <= |secs| <= LOGSIZE
    requires forall i :: 0 <= i < |secs| ==> secs[i] < UINT_LIMIT
  {
    if k == 0 then PutWord(b, 0, |secs|) else PutWord(PutHead(b, secs, k - 1), k, secs[k - 1])
  }

  lemma {:induction false} PutHeadWords(b: Block, secs: seq<nat>, k: nat, j: nat)
    requires k <= |secs| <= LOGSIZE
    requires forall i :: 0 <= i < |secs| ==> secs[i] < UINT_LIMIT
    requires j <= LOGSIZE
    ensures Word(PutHead(b, secs, k), j) == if j == 0 then |secs| else if j <= k then secs[j - 1] else Word(b, j)
  {
    if k == 0 {
      WordOfPutWord(b, 0, |secs|, j);
    } else {
      PutHeadWords(b, secs, k - 1, j);
      WordOfPutWord(PutHead(b, secs, k - 1), k, secs[k - 1], j);
    }
  }

  /** Reading back a header that was written gives the same sectors. */
  lemma HeadRoundTrip(b: Block, secs: seq<nat>)
    requires |secs| <= LOGSIZE
    requires forall i :: 0 <= i < |secs| ==> secs[i] < UINT_LIMIT
    ensures Word(PutHead(b, secs, |secs|), 0) == |secs|
    ensures HeadOf(PutHead(b, secs, |secs|)) == secs
  {
    var p := PutHead(b, secs, |secs|);
    forall j | 0 <= j <= LOGSIZE
      ensures Word(p, j) == if j == 0 then |secs| else if j <= |secs| then secs[j - 1] else Word(b, j)
    {
      PutHeadWords(b, secs, |secs|, j);
    }
  }

  // ---------- the sector map that a disk and a list of logged sectors denote ----------

  /** The first log slot recorded for sector s, or |secs| when there is none: the absorption
      loop of log_write. */
  function Slot(secs: seq<nat>, s: nat): (i: nat)
    ensures i <= |secs|
    ensures i < |secs| ==> secs[i] == s
    ensures forall j :: 0 <= j < i ==> secs[j] != s
  {
    if secs == [] || secs[0] == s then 0 else 1 + Slot(secs[1..], s)
  }

  /** The logged sectors after a log_write of sector s. */
  function Absorb(secs: seq<nat>, s: nat): seq<nat> {
    if Slot(secs, s) < |secs| then secs else secs + [s]
  }

  /** The i-th log block. */
  function LogBlock(g: Geometry, d: Disk, i: nat): Block
    requires g.start + 1 + i < |d|
  {
    d[g.start + 1 + i]
  }

  /** The contents of home sector s when the log blocks of `secs` stand over the home sectors. */
  ghost function Overlaid(g: Geometry, d: Disk, secs: seq<nat>, s: nat): Block
    requires Fits(g, d) && |secs| <= Capacity(g) && s < |d|
  {
    if Slot(secs, s) < |secs| then LogBlock(g, d, Slot(secs, s)) else d[s]
  }

  /** The map from home sectors to contents that the disk denotes under the logged sectors `secs`. */
  ghost function Overlay(g: Geometry, d: Disk, secs: seq<nat>): map<nat, Block>
    requires Fits(g, d) && |secs| <= Capacity(g)
  {
    map s: nat | 0 <= s < |d| && !InLog(g, s) :: Overlaid(g, d, secs, s)
  }

  lemma OverlayAt(g: Geometry, d: Disk, secs: seq<nat>, s: nat)
    requires Fits(g, d) && |secs| <= Capacity(g)
    requires s < |d| && !InLog(g, s)
    ensures s in Overlay(g, d, secs) && Overlay(g, d, secs)[s] == Overlaid(g, d, secs, s)
  {
  }

  /** What the home sectors hold right now. */
  ghost function HomeMap(g: Geometry, d: Disk): map<nat, Block>
    requires Fits(g, d)
  {
    map s: nat | 0 <= s < |d| && !InLog(g, s) :: d[s]
  }

  /** What the home sectors will hold once recovery has run to its end. */
  ghost function RecoveredMap(g: Geometry, d: Disk): map<nat, Block>
    requires Fits(g, d) && GoodHead(g, d)
  {
    Overlay(g, d, HeadOf(d[g.start]))
  }

  lemma SlotOfListed(secs: seq<nat>, k: nat)
    requires k < |secs|
    requires forall i, j :: 0 <= i < j < |secs| ==> secs[i] != secs[j]
    ensures Slot(secs, secs[k]) == k
  {
  }

  lemma EmptyOverlay(g: Geometry, d: Disk)
    requires Fits(g, d)
    ensures Overlay(g, d, []) == HomeMap(g, d)
  {
  }

  /** The disk after log_write has appended `data` for sector s. */
  function Append(g: Geometry, d: Disk, secs: seq<nat>, s: nat, data: Block): (d': Disk)
    requires g.start + 1 + |secs| < |d|
    ensures |d'| == |d|
  {
    d[g.start + 1 + Slot(secs, s) := data]
  }

  /** A log append changes the overlay at the appended sector only, and no home sector. */
  lemma AppendStep(g: Geometry, d: Disk, secs: seq<nat>, s: nat, data: Block)
    requires Fits(g, d) && GoodSectors(g, d, secs) && |secs| < Capacity(g)
    requires s < |d| && !InLog(g, s)
    ensures GoodSectors(g, Append(g, d, secs, s, data), Absorb(secs, s))
    ensures Overlay(g, Append(g, d, secs, s, data), Absorb(secs, s)) == Overlay(g, d, secs)[s := data]
    ensures HomeMap(g, Append(g, d, secs, s, data)) == HomeMap(g, d)
    ensures Append(g, d, secs, s, data)[g.start] == d[g.start]
  {
    AppendGood(g, d, secs, s, data);
    AppendOverlay(g, d, secs, s, data);
    AppendHome(g, d, secs, s, data);
  }

  lemma AppendGood(g: Geometry, d: Disk, secs: seq<nat>, s: nat, data: Block)
    requires Fits(g, d) && GoodSectors(g, d, secs) && |secs| < Capacity(g)
    requires s < |d| && !InLog(g, s)
    ensures GoodSectors(g, Append(g, d, secs, s, data), Absorb(secs, s))
  {
  }

  lemma AppendHome(g: Geometry, d: Disk, secs: seq<nat>, s: nat, data: Block)
    requires Fits(g, d) && |secs| < Capacity(g)
    ensures HomeMap(g, Append(g, d, secs, s, data)) == HomeMap(g, d)
  {
  }

  lemma AppendOverlay(g: Geometry, d: Disk, secs: seq<nat>, s: nat, data: Block)
    requires Fits(g, d) && GoodSectors(g, d, secs) && |secs| < Capacity(g)
    requires s < |d| && !InLog(g, s)
    ensures Overlay(g, Append(g, d, secs, s, data), Absorb(secs, s)) == Overlay(g, d, secs)[s := data]
  {
    var d' := Append(g, d, secs, s, data);
    var secs' := Absorb(secs, s);
    forall t: nat | t < |d| && !InLog(g, t)
      ensures Overlaid(g, d', secs', t) == if t == s then data else Overlaid(g, d, secs, t)
    {
      AppendAt(g, d, secs, s, data, t);
    }
  }

  lemma AppendAt(g: Geometry, d: Disk, secs: seq<nat>, s: nat, data: Block, t: nat)
    requires Fits(g, d) && |secs| < Capacity(g)
    requires s < |d| && !InLog(g, s) && t < |d| && !InLog(g, t)
    ensures Overlaid(g, Append(g, d, secs, s, data), Absorb(secs, s), t)
            == if t == s then data else Overlaid(g, d, secs, t)
  {
    SlotAfterAbsorb(secs, s, t);
  }

  /** Absorption leaves every recorded slot where it was and gives a new sector the next one. */
  lemma SlotAfterAbsorb(secs: seq<nat>, s: nat, t: nat)
    ensures Slot(Absorb(secs, s), t) == if s == t || Slot(secs, t) < |secs| then Slot(secs, t) else |Absorb(secs, s)|
  {
    var secs' := Absorb(secs, s);
    SlotUnique(secs', t, if s == t || Slot(secs, t) < |secs| then Slot(secs, t) else |secs'|);
  }

  lemma SlotUnique(secs: seq<nat>, s: nat, i: nat)
    requires i <= |secs|
    requires i < |secs| ==> secs[i] == s
    requires forall j :: 0 <= j < i ==> secs[j] != s
    ensures Slot(secs, s) == i
  {
  }

  /** Writing the header changes nothing but the header. */
  lemma HeaderStep(g: Geometry, d: Disk, secs: seq<nat>, b: Block)
    requires Fits(g, d) && GoodSectors(g, d, secs)
    ensures GoodSectors(g, d[g.start := b], secs)
    ensures Overlay(g, d[g.start := b], secs) == Overlay(g, d, secs)
    ensures HomeMap(g, d[g.start := b]) == HomeMap(g, d)
  {
    var d' := d[g.start := b];
    forall s: nat | s < |d| && !InLog(g, s) ensures Overlaid(g, d', secs, s) == Overlaid(g, d, secs, s) {
    }
    assert HomeMap(g, d') == HomeMap(g, d);
  }

  /** Copying a log block home does not change the overlay. */
  lemma InstallStep(g: Geometry, d: Disk, secs: seq<nat>, k: nat)
    requires Fits(g, d) && GoodSectors(g, d, secs) && k < |secs|
    ensures var d' := d[secs[k] := LogBlock(g, d, k)];
            && GoodSectors(g, d', secs)
            && Overlay(g, d', secs) == Overlay(g, d, secs)
            && d'[g.start] == d[g.start]
            && (forall i :: 0 <= i < |secs| ==> LogBlock(g, d', i) == LogBlock(g, d, i))
  {
    SlotOfListed(secs, k);
  }

  /** Once every log block is home, the home sectors are the overlay. */
  lemma Installed(g: Geometry, d: Disk, secs: seq<nat>)
    requires Fits(g, d) && GoodSectors(g, d, secs)
    requires forall i :: 0 <= i < |secs| ==> d[secs[i]] == LogBlock(g, d, i)
    ensures HomeMap(g, d) == Overlay(g, d, secs)
  {
  }

  // ---------- the sector writes of each operation ----------

  ghost predicate InRange(d: Disk, ws: seq<Write>) {
    forall i :: 0 <= i < |ws| ==> ws[i].sector < |d|
  }

  /** The disk after the writes ws, in order. */
  ghost function ApplyAll(d: Disk, ws: seq<Write>): (r: Disk)
    requires InRange(d, ws)
    ensures |r| == |d|
  {
    if ws == [] then d else ApplyAll(d, ws[..|ws| - 1])[ws[|ws| - 1].sector := ws[|ws| - 1].data]
  }

  lemma ApplyOneMore(d: Disk, ws: seq<Write>, w: Write)
    requires InRange(d, ws) && w.sector < |d|
    ensures InRange(d, ws + [w])
    ensures ApplyAll(d, ws + [w]) == ApplyAll(d, ws)[w.sector := w.data]
  {
    assert (ws + [w])[..|ws|] == ws;
  }

  lemma {:induction false} ApplyConcat(d: Disk, ws: seq<Write>, vs: seq<Write>)
    requires InRange(d, ws) && InRange(d, vs)
    ensures InRange(d, ws + vs)
    ensures ApplyAll(d, ws + vs) == ApplyAll(ApplyAll(d, ws), vs)
  {
    if vs == [] {
      assert ws + vs == ws;
    } else {
      ApplyConcat(d, ws, vs[..|vs| - 1]);
      assert (ws + vs)[..|ws + vs| - 1] == ws + vs[..|vs| - 1];
    }
  }

  /** Cutting a sequence of writes inside its second part. */
  lemma ApplyCut(d: Disk, ws: seq<Write>, vs: seq<Write>, n: nat)
    requires InRange(d, ws) && InRange(d, vs) && n <= |vs|
    ensures InRange(d, (ws + vs)[..|ws| + n])
    ensures ApplyAll(d, (ws + vs)[..|ws| + n]) == ApplyAll(ApplyAll(d, ws), vs[..n])
  {
    assert (ws + vs)[..|ws| + n] == ws + vs[..n];
    ApplyConcat(d, ws, vs[..n]);
  }

  lemma ApplySingle(d: Disk, w: Write)
    requires w.sector < |d|
    ensures ApplyAll(d, [w]) == d[w.sector := w.data]
  {
    ApplyOneMore(d, [], w);
    assert [] + [w] == [w];
  }

  /** install_trans: the first k copies, log block to home sector. */
  ghost function InstallWrites(g: Geometry, d: Disk, secs: seq<nat>, k: nat): (ws: seq<Write>)
    requires Fits(g, d) && GoodSectors(g, d, secs) && k <= |secs|
    ensures |ws| == k
    ensures forall i :: 0 <= i < k ==> ws[i] == Write(secs[i], LogBlock(g, d, i))
    ensures InRange(d, ws)
  {
    seq(k, i requires 0 <= i < k => Write(secs[i], LogBlock(g, d, i)))
  }

  /** Any prefix of install_trans keeps the overlay; the whole of it makes it the home contents. */
  lemma {:induction false} InstallPrefix(g: Geometry, d: Disk, secs: seq<nat>, k: nat)
    requires Fits(g, d) && GoodSectors(g, d, secs) && k <= |secs|
    ensures var d' := ApplyAll(d, InstallWrites(g, d, secs, k));
            && GoodSectors(g, d', secs)
            && Overlay(g, d', secs) == Overlay(g, d, secs)
            && d'[g.start] == d[g.start]
            && (forall i :: 0 <= i < |secs| ==> LogBlock(g, d', i) == LogBlock(g, d, i))
            && (forall i :: 0 <= i < k ==> d'[secs[i]] == LogBlock(g, d, i))
  {
    if k > 0 {
      InstallPrefix(g, d, secs, k - 1);
      var ws := InstallWrites(g, d, secs, k);
      assert ws[..k - 1] == InstallWrites(g, d, secs, k - 1);
      InstallStep(g, ApplyAll(d, ws[..k - 1]), secs, k - 1);
    }
  }

  /** recover_from_log and the tail of commit_trans: install, then clear the header. */
  ghost function RedoWrites(g: Geometry, d: Disk, secs: seq<nat>): (ws: seq<Write>)
    requires Fits(g, d) && GoodSectors(g, d, secs)
    ensures |ws| == |secs| + 1
    ensures InRange(d, ws)
  {
    InstallWrites(g, d, secs, |secs|) + [Write(g.start, PutHead(d[g.start], [], 0))]
  }

  /** Recovery cut short after any number k of its writes changes nothing that matters: the
      header stays good and recovery from there ends in the same home sectors. Run to its
      end, it leaves an empty log over exactly those home sectors. */
  lemma RecoveryCut(g: Geometry, d: Disk, secs: seq<nat>, k: nat)
    requires Fits(g, d) && GoodHead(g, d) && secs == HeadOf(d[g.start])
    requires k <= |secs| + 1
    ensures var d' := ApplyAll(d, RedoWrites(g, d, secs)[..k]);
            && GoodHead(g, d')
            && RecoveredMap(g, d') == Overlay(g, d, secs)
            && (k == |secs| + 1 ==> HeadOf(d'[g.start]) == [] && HomeMap(g, d') == Overlay(g, d, secs))
  {
    var ws := RedoWrites(g, d, secs);
    if k <= |secs| {
      assert ws[..k] == InstallWrites(g, d, secs, k);
      InstallPrefix(g, d, secs, k);
    } else {
      assert ws[..k] == ws && ws[..|ws| - 1] == InstallWrites(g, d, secs, |secs|);
      InstallPrefix(g, d, secs, |secs|);
      var d1 := ApplyAll(d, InstallWrites(g, d, secs, |secs|));
      Installed(g, d1, secs);
      HeaderStep(g, d1, secs, PutHead(d[g.start], [], 0));
      HeadRoundTrip(d[g.start], []);
      EmptyOverlay(g, d1[g.start := PutHead(d[g.start], [], 0)]);
    }
  }

  // ---------- transactions ----------

  /** A transaction is the sequence of its log_write calls: home sector and new contents. */
  type Transaction = seq<Write>

  /** log.lh.sector[..log.lh.n] after the calls of tx, starting from an empty log. */
  ghost function LoggedSectors(tx: Transaction): seq<nat> {
    if tx == [] then [] else Absorb(LoggedSectors(tx[..|tx| - 1]), tx[|tx| - 1].sector)
  }

  /** No call of tx panics: home sectors only, and at every call the log still has room
      (log_write asks for room even when it is about to absorb). */
  ghost predicate Legal(g: Geometry, d: Disk, tx: Transaction) {
    tx == [] ||
    (var last := tx[|tx| - 1];
     && Legal(g, d, tx[..|tx| - 1])
     && |LoggedSectors(tx[..|tx| - 1])| < Capacity(g)
     && last.sector < |d| && !InLog(g, last.sector))
  }

  /** The log appends that the calls of tx issue. */
  ghost function AppendWrites(g: Geometry, tx: Transaction): (ws: seq<Write>)
    ensures |ws| == |tx|
  {
    if tx == [] then []
    else
      var last := tx[|tx| - 1];
      AppendWrites(g, tx[..|tx| - 1])
      + [Write(g.start + 1 + Slot(LoggedSectors(tx[..|tx| - 1]), last.sector), last.data)]
  }

  /** The sector map after the calls of tx, with no log in between. */
  ghost function Effect(m: map<nat, Block>, tx: Transaction): map<nat, Block> {
    if tx == [] then m else Effect(m, tx[..|tx| - 1])[tx[|tx| - 1].sector := tx[|tx| - 1].data]
  }

  /** The contents of the last log_write of sector s in tx. */
  ghost function LastWrite(tx: Transaction, s: nat): Option<Block> {
    if tx == [] then None
    else if tx[|tx| - 1].sector == s then Some(tx[|tx| - 1].data)
    else LastWrite(tx[..|tx| - 1], s)
  }

  lemma {:induction false} EffectAt(m: map<nat, Block>, tx: Transaction, s: nat)
    ensures s in Effect(m, tx) <==> s in m || LastWrite(tx, s).Some?
    ensures LastWrite(tx, s).Some? ==> s in Effect(m, tx) && Effect(m, tx)[s] == LastWrite(tx, s).value
    ensures LastWrite(tx, s).None? && s in m ==> s in Effect(m, tx) && Effect(m, tx)[s] == m[s]
  {
    if tx != [] {
      EffectAt(m, tx[..|tx| - 1], s);
    }
  }

  lemma {:induction false} SectorsOfLast(tx: Transaction, i: nat)
    requires i < |tx|
    ensures LastWrite(tx, tx[i].sector).Some?
  {
    if i < |tx| - 1 {
      SectorsOfLast(tx[..|tx| - 1], i);
    }
  }

  lemma {:induction false} Appends(g: Geometry, d: Disk, tx: Transaction)
    requires Fits(g, d) && Legal(g, d, tx)
    ensures InRange(d, AppendWrites(g, tx))
    ensures var d' := ApplyAll(d, AppendWrites(g, tx));
            && GoodSectors(g, d', LoggedSectors(tx))
            && Overlay(g, d', LoggedSectors(tx)) == Effect(HomeMap(g, d), tx)
            && HomeMap(g, d') == HomeMap(g, d)
            && d'[g.start] == d[g.start]
  {
    if tx == [] {
      EmptyOverlay(g, d);
    } else {
      var before, last := tx[..|tx| - 1], tx[|tx| - 1];
      Appends(g, d, before);
      var d1 := ApplyAll(d, AppendWrites(g, before));
      AppendStep(g, d1, LoggedSectors(before), last.sector, last.data);
      LastAppend(g, d, tx);
    }
  }

  lemma LastAppend(g: Geometry, d: Disk, tx: Transaction)
    requires Fits(g, d) && Legal(g, d, tx) && tx != []
    requires InRange(d, AppendWrites(g, tx[..|tx| - 1]))
    ensures InRange(d, AppendWrites(g, tx))
    ensures var before, last := tx[..|tx| - 1], tx[|tx| - 1];
            ApplyAll(d, AppendWrites(g, tx))
            == Append(g, ApplyAll(d, AppendWrites(g, before)), LoggedSectors(before), last.sector, last.data)
  {
    var ws := AppendWrites(g, tx);
    assert ws[..|ws| - 1] == AppendWrites(g, tx[..|tx| - 1]);
  }

  /** commit_trans: nothing when no sector was logged; otherwise the header, the installs, and
      the cleared header. */
  ghost function CommitWrites(g: Geometry, d: Disk, secs: seq<nat>): (ws: seq<Write>)
    requires Fits(g, d) && GoodSectors(g, d, secs)
    ensures |ws| == if secs == [] then 0 else |secs| + 2
    ensures InRange(d, ws)
  {
    if secs == [] then []
    else
      var header := PutHead(d[g.start], secs, |secs|);
      [Write(g.start, header)] + RedoWrites(g, d[g.start := header], secs)
  }

  /** A whole transaction: its appends, then its commit. */
  ghost function TransactionWrites(g: Geometry, d: Disk, tx: Transaction): (ws: seq<Write>)
    requires Fits(g, d) && Legal(g, d, tx)
    ensures InRange(d, ws)
    ensures |ws| == if tx == [] then 0 else |tx| + |LoggedSectors(tx)| + 2
  {
    Appends(g, d, tx);
    LoggedNonempty(tx);
    AppendWrites(g, tx) + CommitWrites(g, ApplyAll(d, AppendWrites(g, tx)), LoggedSectors(tx))
  }

  lemma LoggedNonempty(tx: Transaction)
    ensures LoggedSectors(tx) == [] <==> tx == []
  {
  }

  /** Commit, cut anywhere after its header write: the transaction is in. */
  lemma CommittedCut(g: Geometry, d: Disk, secs: seq<nat>, k: nat)
    requires Fits(g, d) && GoodSectors(g, d, secs) && secs != []
    requires 0 < k <= |secs| + 2
    ensures var d' := ApplyAll(d, CommitWrites(g, d, secs)[..k]);
            && GoodHead(g, d')
            && RecoveredMap(g, d') == Overlay(g, d, secs)
            && (k == |secs| + 2 ==> HeadOf(d'[g.start]) == [] && HomeMap(g, d') == Overlay(g, d, secs))
  {
    hide Word, PutHead, HomeMap, Overlay, ApplyAll;
    var header := PutHead(d[g.start], secs, |secs|);
    var d1 := d[g.start := header];
    HeaderStep(g, d, secs, header);
    HeadRoundTrip(d[g.start], secs);
    assert d1[g.start] == header;
    RecoveryCut(g, d1, secs, k - 1);
    DiskAfterHeader(g, d, secs, k);
  }

  /** Commit, cut anywhere: before its header write nothing has happened, from then on the
      transaction is in. */
  lemma CommitCut(g: Geometry, d: Disk, secs: seq<nat>, k: nat)
    requires Quiet(g, d) && GoodSectors(g, d, secs) && secs != [] && k <= |secs| + 2
    ensures var d' := ApplyAll(d, CommitWrites(g, d, secs)[..k]);
            && GoodHead(g, d')
            && RecoveredMap(g, d') == (if k == 0 then HomeMap(g, d) else Overlay(g, d, secs))
            && (k == |secs| + 2 ==> HeadOf(d'[g.start]) == [] && HomeMap(g, d') == Overlay(g, d, secs))
  {
    hide Word, GoodSectors, Overlay, HomeMap;
    if k == 0 {
      EmptyOverlay(g, d);
    } else {
      CommittedCut(g, d, secs, k);
    }
  }

  lemma DiskAfterHeader(g: Geometry, d: Disk, secs: seq<nat>, k: nat)
    requires Fits(g, d) && GoodSectors(g, d, secs) && secs != []
    requires 0 < k <= |secs| + 2
    ensures var d1 := d[g.start := PutHead(d[g.start], secs, |secs|)];
            ApplyAll(d, CommitWrites(g, d, secs)[..k]) == ApplyAll(d1, RedoWrites(g, d1, secs)[..k - 1])
  {
    var header := Write(g.start, PutHead(d[g.start], secs, |secs|));
    ApplySingle(d, header);
    ApplyCut(d, [header], RedoWrites(g, d[g.start := header.data], secs), k - 1);
  }

  /** A transaction cut among its appends. */
  lemma CutInAppends(g: Geometry, d: Disk, tx: Transaction, k: nat)
    requires Fits(g, d) && Legal(g, d, tx)
    requires Quiet(g, d)
    requires k <= |tx|
    ensures TransactionWrites(g, d, tx)[..k] == AppendWrites(g, tx[..k])
    ensures var d' := ApplyAll(d, TransactionWrites(g, d, tx)[..k]);
            && GoodHead(g, d') && RecoveredMap(g, d') == HomeMap(g, d)
            && HeadOf(d'[g.start]) == [] && HomeMap(g, d') == HomeMap(g, d)
  {
    hide Word, HomeMap, Overlay, ApplyAll;
    LegalPrefix(g, d, tx, k);
    assert TransactionWrites(g, d, tx)[..k] == AppendWrites(g, tx[..k]);
    Appends(g, d, tx[..k]);
    EmptyOverlay(g, ApplyAll(d, AppendWrites(g, tx[..k])));
  }

  /** A transaction cut inside its commit is its appends followed by the commit cut there. */
  lemma DiskInCommit(g: Geometry, d: Disk, appends: seq<Write>, secs: seq<nat>, k: nat)
    requires Fits(g, d) && InRange(d, appends)
    requires GoodSectors(g, ApplyAll(d, appends), secs)
    requires |appends| <= k <= |appends| + |CommitWrites(g, ApplyAll(d, appends), secs)|
    ensures var d1 := ApplyAll(d, appends);
            var ws := appends + CommitWrites(g, d1, secs);
            InRange(d, ws) && ApplyAll(d, ws[..k]) == ApplyAll(d1, CommitWrites(g, d1, secs)[..k - |appends|])
  {
    var n := k - |appends|;
    ApplyCut(d, appends, CommitWrites(g, ApplyAll(d, appends), secs), n);
    assert k == |appends| + n;
  }

  /** CRASH ATOMICITY of one transaction. Cut after any number k of its sector writes, recovery
      will produce the sectors from before the transaction as long as the header write (write
      number |tx| + 1) has not reached the disk, and all of its new contents from then on. */
  lemma TransactionCut(g: Geometry, d: Disk, tx: Transaction, k: nat)
    requires Fits(g, d) && Legal(g, d, tx)
    requires Quiet(g, d)
    requires k <= |TransactionWrites(g, d, tx)|
    ensures var ws := TransactionWrites(g, d, tx);
            var d' := ApplyAll(d, ws[..k]);
            && GoodHead(g, d')
            && RecoveredMap(g, d') == (if k <= |tx| then HomeMap(g, d) else Effect(HomeMap(g, d), tx))
            && (k == |ws| ==> HeadOf(d'[g.start]) == [] && HomeMap(g, d') == Effect(HomeMap(g, d), tx))
  {
    hide *;
    if k <= |tx| {
      CutInAppends(g, d, tx, k);
      EmptyTransaction(g, d, tx);
    } else {
      CutInCommit(g, d, tx, k);
    }
  }

  lemma EmptyTransaction(g: Geometry, d: Disk, tx: Transaction)
    requires Fits(g, d) && Legal(g, d, tx)
    ensures tx != [] ==> |TransactionWrites(g, d, tx)| > |tx|
    ensures tx == [] ==> Effect(HomeMap(g, d), tx) == HomeMap(g, d)
  {
  }

  lemma CutInCommit(g: Geometry, d: Disk, tx: Transaction, k: nat)
    requires Quiet(g, d) && Legal(g, d, tx) && |tx| < k <= |TransactionWrites(g, d, tx)|
    ensures var ws := TransactionWrites(g, d, tx);
            var d' := ApplyAll(d, ws[..k]);
            && GoodHead(g, d') && RecoveredMap(g, d') == Effect(HomeMap(g, d), tx)
            && (k == |ws| ==> HeadOf(d'[g.start]) == [] && HomeMap(g, d') == Effect(HomeMap(g, d), tx))
  {
    hide Word, HomeMap, Overlay, ApplyAll, Effect;
    LoggedNonempty(tx);
    Appends(g, d, tx);
    var appends := AppendWrites(g, tx);
    CommittedCut(g, ApplyAll(d, appends), LoggedSectors(tx), k - |appends|);
    DiskInCommit(g, d, appends, LoggedSectors(tx), k);
  }

  lemma {:induction false} LegalPrefix(g: Geometry, d: Disk, tx: Transaction, k: nat)
    requires k <= |tx| && Legal(g, d, tx)
    ensures Legal(g, d, tx[..k])
    ensures AppendWrites(g, tx[..k]) == AppendWrites(g, tx)[..k]
  {
    if k < |tx| {
      LegalPrefix(g, d, tx[..|tx| - 1], k);
      assert tx[..|tx| - 1][..k] == tx[..k];
    } else {
      assert tx[..k] == tx;
    }
  }
}
