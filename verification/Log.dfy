/** The log of xv6/log.c running on the buffer cache: cache, log and disk together behave as one
    map from home sectors to contents, whatever is evicted when. */
module Log {
  import opened Blocks
  import opened LogSpec
  import opened BufferCache

  // ---------- what the cached buffers have to do with the disk ----------

  /** Buffer b holds what it should: if pinned, the log block of its sector, which is one of those
      logged from slot t on; otherwise, once valid, the sector's contents on disk. */
  ghost predicate Faithful(g: Geometry, disk: Disk, lh: seq<nat>, t: nat, b: Buf)
    requires Fits(g, disk) && |lh| <= Capacity(g)
  {
    if b.dirty then
      && b.dev == ROOTDEV && b.valid && b.sector < |disk|
      && t <= Slot(lh, b.sector) < |lh|
      && b.data == LogBlock(g, disk, Slot(lh, b.sector))
    else
      b.dev == ROOTDEV && b.valid ==> b.sector < |disk| && b.data == disk[b.sector]
  }

  /** Buffer b, held inside a transaction, may have new data; pinned or not, it is valid. */
  ghost predicate Held(g: Geometry, disk: Disk, lh: seq<nat>, b: Buf) {
    && b.busy && b.valid && b.dev == ROOTDEV && b.sector < |disk| && !InLog(g, b.sector)
    && (b.dirty ==> Slot(lh, b.sector) < |lh|)
  }

  ghost predicate Coherent(g: Geometry, disk: Disk, lh: seq<nat>, t: nat, buf: seq<Buf>, mine: set<nat>)
    requires Fits(g, disk) && |lh| <= Capacity(g)
  {
    && (forall b :: 0 <= b < |buf| && b !in mine ==> Faithful(g, disk, lh, t, buf[b]))
    && (forall b :: 0 <= b < |buf| && b in mine ==> Held(g, disk, lh, buf[b]))
    && (forall b :: b in mine ==> 0 <= b < |buf|)
  }

  /** The logged sector s stays in the cache until it is installed. */
  ghost predicate Pinned(buf: seq<Buf>, s: nat) {
    exists b :: 0 <= b < |buf| && buf[b].dirty && IsFor(buf[b], s)
  }

  ghost predicate AllPinned(buf: seq<Buf>, lh: seq<nat>) {
    forall i :: 0 <= i < |lh| ==> Pinned(buf, lh[i])
  }

  /** A buffer that bread returns holds the current contents of its sector, and bread keeps
      everything coherent: an evicted buffer is never the only copy of anything. */
  lemma BreadIsCurrent(g: Geometry, disk: Disk, lh: seq<nat>, t: nat, before: seq<Buf>, after: seq<Buf>,
                       b: nat, s: nat, mine: set<nat>)
    requires Fits(g, disk) && GoodSectors(g, disk, lh)
    requires |before| == NBUF && Unique(before) && b < NBUF && s < |disk|
    requires BufferGot(before, after, b, s, disk)
    requires Coherent(g, disk, lh, t, before, mine) && b !in mine
    ensures Coherent(g, disk, lh, t, after, mine)
    ensures AllPinned(before, lh) ==> AllPinned(after, lh) && after[b].data == Overlaid(g, disk, lh, s)
    ensures InLog(g, s) ==> after[b].data == disk[s] && !after[b].dirty
  {
    forall i | 0 <= i < |lh| && Pinned(before, lh[i]) ensures Pinned(after, lh[i]) {
      var c :| 0 <= c < |before| && before[c].dirty && IsFor(before[c], lh[i]);
      assert after[c].dirty && IsFor(after[c], lh[i]);
    }
    if AllPinned(before, lh) && Slot(lh, s) < |lh| {
      assert Pinned(before, lh[Slot(lh, s)]);
      var c :| 0 <= c < |before| && before[c].dirty && IsFor(before[c], s);
      assert c == b;
    }
  }

  /** A pinned sector stays pinned as long as its buffer stays dirty. */
  lemma PinsKept(before: seq<Buf>, after: seq<Buf>, lh: seq<nat>)
    requires AllPinned(before, lh) && |before| == |after|
    requires forall c :: 0 <= c < |before| && before[c].dirty ==>
               after[c].dirty && after[c].dev == before[c].dev && after[c].sector == before[c].sector
    ensures AllPinned(after, lh)
  {
    forall i | 0 <= i < |lh| ensures Pinned(after, lh[i]) {
      assert Pinned(before, lh[i]);
      var c :| 0 <= c < |before| && before[c].dirty && IsFor(before[c], lh[i]);
      assert after[c].dirty && IsFor(after[c], lh[i]);
    }
  }

  lemma OneBufferEach(buf: seq<Buf>, a: nat, b: nat, s: nat)
    requires Unique(buf) && a < |buf| && b < |buf| && a != b && IsFor(buf[a], s)
    ensures !IsFor(buf[b], s)
  {
  }

  lemma CleanIsNotLogged(buf: seq<Buf>, lh: seq<nat>, b: nat)
    requires AllPinned(buf, lh) && Unique(buf) && b < |buf| && buf[b].dev == ROOTDEV && !buf[b].dirty
    ensures Slot(lh, buf[b].sector) == |lh|
  {
  }

  /** The buffers after log_write: the log buffer l holds the data, the buffer b itself is pinned. */
  ghost predicate LoggedBuffers(mid: seq<Buf>, after: seq<Buf>, l: nat, b: nat)
    requires l < |mid| && b < |mid| && l != b
  {
    && |after| == |mid|
    && after[l] == mid[l].(data := mid[b].data, busy := false)
    && after[b] == mid[b].(dirty := true)
    && forall c :: 0 <= c < |mid| && c != l && c != b ==> after[c] == mid[c]
  }

  lemma LogWriteKeepsCoherent(g: Geometry, disk: Disk, lh: seq<nat>, mid: seq<Buf>, after: seq<Buf>,
                              l: nat, k: nat, b: nat, mine: set<nat>)
    requires Fits(g, disk) && GoodSectors(g, disk, lh) && |lh| < Capacity(g)
    requires |mid| == NBUF && Unique(mid) && b in mine && l < NBUF && b < NBUF && l != b
    requires Coherent(g, disk, lh, 0, mid, mine) && AllPinned(mid, lh)
    requires k == g.start + 1 + Slot(lh, mid[b].sector)
    requires IsFor(mid[l], k) && mid[l].valid && !mid[l].dirty
    requires LoggedBuffers(mid, after, l, b)
    ensures var lh' := Absorb(lh, mid[b].sector);
            var disk' := Append(g, disk, lh, mid[b].sector, mid[b].data);
            && GoodSectors(g, disk', lh')
            && Coherent(g, disk', lh', 0, after, mine)
            && AllPinned(after, lh')
  {
    hide Slot;
    var s, data := mid[b].sector, mid[b].data;
    AppendGood(g, disk, lh, s, data);
    LogWriteOthers(g, disk, lh, mid, after, l, k, b, mine);
    var lh', disk' := Absorb(lh, s), Append(g, disk, lh, s, data);
    forall c | 0 <= c < NBUF && c in mine ensures Held(g, disk', lh', after[c]) {
      SlotAfterAbsorb(lh, s, mid[c].sector);
    }
    PinsKept(mid, after, lh);
    assert Pinned(after, s) by { assert IsFor(after[b], s) && after[b].dirty; }
  }

  lemma LogWriteOthers(g: Geometry, disk: Disk, lh: seq<nat>, mid: seq<Buf>, after: seq<Buf>,
                       l: nat, k: nat, b: nat, mine: set<nat>)
    requires Fits(g, disk) && GoodSectors(g, disk, lh) && |lh| < Capacity(g)
    requires |mid| == NBUF && Unique(mid) && b in mine && l < NBUF && b < NBUF && l != b
    requires Coherent(g, disk, lh, 0, mid, mine)
    requires k == g.start + 1 + Slot(lh, mid[b].sector)
    requires IsFor(mid[l], k) && mid[l].valid && !mid[l].dirty
    requires LoggedBuffers(mid, after, l, b)
    ensures var disk' := Append(g, disk, lh, mid[b].sector, mid[b].data);
            forall c :: 0 <= c < NBUF && c !in mine ==>
              Faithful(g, disk', Absorb(lh, mid[b].sector), 0, after[c])
  {
    var s, data := mid[b].sector, mid[b].data;
    forall c | 0 <= c < NBUF && c !in mine
      ensures Faithful(g, Append(g, disk, lh, s, data), Absorb(lh, s), 0, after[c])
    {
      assert Faithful(g, disk, lh, 0, mid[c]);
      assert IsFor(mid[l], k) && IsFor(mid[b], s);
      if c != l {
        OneBufferEach(mid, b, c, s);
        OneBufferEach(mid, l, c, k);
        FaithfulAfterAppend(g, disk, lh, s, data, k, mid[c]);
      }
    }
  }

  /** A log append concerns only the buffers of the appended sector and of its log block. */
  lemma FaithfulAfterAppend(g: Geometry, disk: Disk, lh: seq<nat>, s: nat, data: Block, k: nat, c: Buf)
    requires Fits(g, disk) && GoodSectors(g, disk, lh) && |lh| < Capacity(g)
    requires Faithful(g, disk, lh, 0, c) && k == g.start + 1 + Slot(lh, s)
    requires !IsFor(c, s) && !IsFor(c, k)
    ensures Faithful(g, Append(g, disk, lh, s, data), Absorb(lh, s), 0, c)
  {
    SlotAfterAbsorb(lh, s, c.sector);
    if c.dirty {
      var i := Slot(lh, c.sector);
      assert i != Slot(lh, s);
      AppendLogBlock(g, disk, lh, s, data, i);
    }
  }

  lemma AppendLogBlock(g: Geometry, disk: Disk, lh: seq<nat>, s: nat, data: Block, i: nat)
    requires g.start + 1 + |lh| < |disk| && i < |lh| && i != Slot(lh, s)
    ensures LogBlock(g, Append(g, disk, lh, s, data), i) == LogBlock(g, disk, i)
  {
  }

  // ---------- installing ----------

  /** The buffers after one round of install_trans: the home buffer h holds the data and is clean. */
  ghost predicate InstalledBuffers(mid: seq<Buf>, after: seq<Buf>, l: nat, h: nat)
    requires l < |mid| && h < |mid| && l != h
  {
    && |after| == |mid|
    && after[h] == mid[h].(data := mid[l].data, dirty := false, busy := false)
    && after[l] == mid[l].(busy := false)
    && forall c :: 0 <= c < |mid| && c != l && c != h ==> after[c] == mid[c]
  }

  lemma InstallKeepsCoherent(g: Geometry, disk: Disk, lh: seq<nat>, t: nat, mid: seq<Buf>, after: seq<Buf>,
                             l: nat, h: nat)
    requires Fits(g, disk) && GoodSectors(g, disk, lh) && t < |lh|
    requires |mid| == NBUF && Unique(mid) && l < NBUF && h < NBUF && l != h
    requires Coherent(g, disk, lh, t, mid, {})
    requires IsFor(mid[l], g.start + 1 + t) && mid[l].valid && mid[l].data == LogBlock(g, disk, t) && !mid[l].dirty
    requires IsFor(mid[h], lh[t]) && mid[h].valid
    requires InstalledBuffers(mid, after, l, h)
    ensures Coherent(g, disk[lh[t] := LogBlock(g, disk, t)], lh, t + 1, after, {})
    ensures forall i :: 0 <= i < |lh| && i != t && Pinned(mid, lh[i]) ==> Pinned(after, lh[i])
  {
    hide Slot;
    var disk' := disk[lh[t] := LogBlock(g, disk, t)];
    SlotOfListed(lh, t);
    forall c | 0 <= c < NBUF ensures Faithful(g, disk', lh, t + 1, after[c]) {
      if c != h {
        OneBufferEach(mid, h, c, lh[t]);
      }
    }
    forall i | 0 <= i < |lh| && i != t && Pinned(mid, lh[i]) ensures Pinned(after, lh[i]) {
      var c :| 0 <= c < |mid| && mid[c].dirty && IsFor(mid[c], lh[i]);
      assert after[c].dirty && IsFor(after[c], lh[i]);
    }
  }

  lemma AllPinnedNone(buf: seq<Buf>)
    ensures AllPinned(buf, [])
  {
  }

  /** Distinct numbers below n are at most n many. */
  lemma {:induction false} Pigeonhole(xs: seq<nat>, n: nat)
    requires forall i :: 0 <= i < |xs| ==> xs[i] < n
    requires forall i, j :: 0 <= i < j < |xs| ==> xs[i] != xs[j]
    ensures |xs| <= n
    decreases n
  {
    if xs != [] {
      assert xs[0] < n;
      var k := Slot(xs, n - 1);
      if k < |xs| {
        Pigeonhole(xs[..k] + xs[k + 1..], n - 1);
      } else {
        Pigeonhole(xs, n - 1);
      }
    }
  }

  /** Fewer logged sectors than buffers leave a buffer that is not pinned. */
  lemma SomeClean(g: Geometry, disk: Disk, lh: seq<nat>, t: nat, buf: seq<Buf>)
    requires Fits(g, disk) && |lh| <= Capacity(g) && |lh| < NBUF
    requires |buf| == NBUF && Unique(buf) && Coherent(g, disk, lh, t, buf, {})
    ensures exists c :: 0 <= c < NBUF && !buf[c].dirty
  {
    if forall c :: 0 <= c < NBUF ==> buf[c].dirty {
      var slots := seq(NBUF, c requires 0 <= c < NBUF => Slot(lh, buf[c].sector));
      forall i, j | 0 <= i < j < NBUF ensures slots[i] != slots[j] {
        assert buf[i].dirty && buf[j].dirty;
      }
      Pigeonhole(slots, |lh|);
    }
  }

  /** When bget finds no buffer for a log block although only b is busy, the sectors logged and b's
      own are as many as the buffers. */
  lemma Crowded(g: Geometry, disk: Disk, lh: seq<nat>, buf: seq<Buf>, b: nat, k: nat)
    requires Fits(g, disk) && |lh| < Capacity(g) && |buf| == NBUF && Unique(buf) && b < NBUF
    requires Coherent(g, disk, lh, 0, buf, {b}) && NoBufferFor(buf, k)
    requires forall c :: 0 <= c < NBUF && c != b ==> !buf[c].busy
    ensures |Absorb(lh, buf[b].sector)| >= NBUF
  {
    var lh' := Absorb(lh, buf[b].sector);
    forall c | 0 <= c < NBUF ensures Slot(lh', buf[c].sector) < |lh'| && buf[c].dev == ROOTDEV {
      SlotAfterAbsorb(lh, buf[b].sector, buf[c].sector);
      assert c == b ==> Held(g, disk, lh, buf[c]);
      assert c != b ==> Faithful(g, disk, lh, 0, buf[c]);
    }
    hide Coherent, NoBufferFor, Absorb;
    var slots := seq(NBUF, c requires 0 <= c < NBUF => Slot(lh', buf[c].sector));
    forall i, j | 0 <= i < j < NBUF ensures slots[i] != slots[j] {
      assert buf[i].sector != buf[j].sector;
    }
    Pigeonhole(slots, |lh'|);
  }

  ghost function PinOf(buf: seq<Buf>, s: nat): (b: nat)
    requires Pinned(buf, s)
    ensures b < |buf| && IsFor(buf[b], s)
  {
    var b :| 0 <= b < |buf| && buf[b].dirty && IsFor(buf[b], s);
    b
  }

  /** A buffer for a sector that is not logged is one the pins cannot have. */
  lemma LeavesOne(buf: seq<Buf>, lh: seq<nat>, l: nat, k: nat)
    requires AllPinned(buf, lh) && l < |buf| && IsFor(buf[l], k) && k !in lh
    requires forall i, j :: 0 <= i < j < |lh| ==> lh[i] != lh[j]
    ensures |lh| < |buf|
  {
    var pins := seq(|lh|, i requires 0 <= i < |lh| => PinOf(buf, lh[i]));
    var all := pins + [l];
    forall i, j | 0 <= i < j < |all| ensures all[i] != all[j] {
      assert i < |lh| && IsFor(buf[all[i]], lh[i]);
      assert j < |lh| ==> IsFor(buf[all[j]], lh[j]);
    }
    Pigeonhole(all, |buf|);
  }

  // ---------- the log ----------

  class Log {
    const bc: Bcache
    const g: Geometry
    /** log.busy: a transaction is active. */
    var busy: bool
    /** log.lh.sector[..log.lh.n]. */
    var lh: seq<nat>
    /** The buffers that the process in the transaction has got from bread and not released. */
    ghost var mine: set<nat>

    ghost predicate Valid()
      reads this, bc
    {
      && bc.Valid() && Fits(g, bc.disk)
      && GoodSectors(g, bc.disk, lh)
      && Coherent(g, bc.disk, lh, 0, bc.buf, mine)
      && AllPinned(bc.buf, lh)
      && (forall b :: 0 <= b < NBUF && bc.buf[b].busy ==> !InLog(g, bc.buf[b].sector))
      && (!busy ==> lh == [] && mine == {})
    }

    /** Between transactions and inside one, the log on disk is empty. */
    ghost predicate Ready()
      reads this, bc
    {
      Valid() && Quiet(g, bc.disk)
    }

    /** Boot (binit, initlog): an empty cache, then recovery. Recovery needs a buffer for the log
        block and one for its home, so it never panics. */
    constructor (d: Disk, g: Geometry)
      requires Fits(g, d) && GoodHead(g, d)
      ensures fresh(bc) && this.g == g && bc.boot == d
      ensures Ready() && !busy
      ensures bc.writes == RedoWrites(g, d, HeadOf(d[g.start]))
      ensures View() == RecoveredMap(g, d)
    {
      var cache := new Bcache(d);
      bc, this.g, busy, lh, mine := cache, g, false, [], {};
      new;
      hide Bcache.RingOk, Slot, ApplyAll, Overlay, HomeMap, RedoWrites, Coherent, Unique, AllPinned, Word, GoodSectors;
      Booted();
      InitLog(d);
    }

    /** initlog: recovery. */
    method InitLog(ghost d: Disk)
      requires Settled(0) && Idle() && lh == [] && !busy && bc.writes == [] && bc.disk == d && GoodHead(g, d)
      modifies this`lh, bc
      ensures Ready() && Idle()
      ensures bc.writes == RedoWrites(g, d, HeadOf(d[g.start]))
      ensures View() == RecoveredMap(g, d)
    {
      hide Bcache.RingOk, Slot, ApplyAll, Overlay, HomeMap, RedoWrites, Coherent, Unique, AllPinned, Word;
      var ok := RecoverFromLog();
      RecoveredEnd(g, d, HeadOf(d[g.start]));
      AllPinnedNone(bc.buf);
      assert [] + RedoWrites(g, d, HeadOf(d[g.start])) == RedoWrites(g, d, HeadOf(d[g.start]));
    }

    /** A cache fresh from binit holds nothing. */
    lemma Booted()
      requires bc.Valid() && Fits(g, bc.disk) && lh == [] && mine == {}
      requires forall b :: 0 <= b < NBUF ==>
               !bc.buf[b].busy && !bc.buf[b].dirty && !bc.buf[b].valid && bc.buf[b].dev == -1
      ensures Settled(0) && Idle()
    {
      hide Bcache.RingOk, ApplyAll, Unique, Slot;
    }

    /** The sector map that the file system above sees. */
    ghost function View(): map<nat, Block>
      requires Valid()
      reads this, bc
    {
      Overlay(g, bc.disk, lh)
    }

    /** Everything but the pins, with the slots below t already installed. */
    ghost predicate Stable(t: nat)
      reads this, bc
    {
      && bc.Valid() && Fits(g, bc.disk)
      && GoodSectors(g, bc.disk, lh) && t <= |lh|
      && Coherent(g, bc.disk, lh, t, bc.buf, mine)
    }

    /** bread inside the log: the buffer holds the current contents. */
    method Get(s: nat, ghost t: nat) returns (b: nat, ok: bool)
      requires Stable(t) && s < |bc.disk|
      requires forall c :: 0 <= c < NBUF && IsFor(bc.buf[c], s) ==> c !in mine
      modifies bc
      ensures Stable(t) && bc.disk == old(bc.disk) && bc.writes == old(bc.writes)
      ensures AllPinned(old(bc.buf), lh) ==> AllPinned(bc.buf, lh)
      ensures ok ==>
                && b < NBUF && b !in mine && BufferGot(old(bc.buf), bc.buf, b, s, bc.disk)
                && (AllPinned(bc.buf, lh) ==> bc.buf[b].data == Overlaid(g, bc.disk, lh, s))
                && (InLog(g, s) ==> bc.buf[b].data == bc.disk[s] && !bc.buf[b].dirty)
      ensures !ok ==>
                && bc.buf == old(bc.buf)
                && (forall c :: 0 <= c < NBUF ==> !IsFor(bc.buf[c], s) && (bc.buf[c].busy || bc.buf[c].dirty))
    {
      hide Bcache.RingOk;
      ghost var before := bc.buf;
      b, ok := bc.Bread(s, mine);
      if ok {
        assert b !in mine;
        BreadIsCurrent(g, bc.disk, lh, t, before, bc.buf, b, s, mine);
      }
    }

    /** bread of a home sector, by the process in the transaction or by a reader outside it. Fails
        only by the panic "bget: no buffers". */
    method Bread(s: nat, inTransaction: bool) returns (b: nat, ok: bool)
      requires Ready() && s < |bc.disk| && !InLog(g, s) && (inTransaction ==> busy)
      requires forall c :: 0 <= c < NBUF && IsFor(bc.buf[c], s) ==> c !in mine
      modifies this`mine, bc
      ensures Ready() && View() == old(View()) && bc.writes == old(bc.writes)
      ensures bc.disk == old(bc.disk)
      ensures ok ==>
                && b < NBUF && bc.buf[b].busy && IsFor(bc.buf[b], s)
                && bc.buf[b].data == View()[s]
                && mine == (if inTransaction then old(mine) + {b} else old(mine))
                && (forall c :: 0 <= c < NBUF && c != b ==> bc.buf[c] == old(bc.buf)[c])
      ensures !ok ==> mine == old(mine) && bc.buf == old(bc.buf) && forall c :: 0 <= c < NBUF ==>
              bc.buf[c].busy || bc.buf[c].dirty
    {
      hide Bcache.RingOk, Overlay, Overlaid, AllPinned, Quiet, Unique;
      b, ok := Get(s, 0);
      OverlayAt(g, bc.disk, lh, s);
      if ok && inTransaction {
        mine := mine + {b};
      }
    }

    /** The holder modifies b->data. */
    method Modify(b: nat, data: Block)
      requires Ready() && b in mine
      modifies bc
      ensures Ready() && View() == old(View()) && bc.writes == old(bc.writes)
      ensures bc.buf == old(bc.buf)[b := old(bc.buf[b]).(data := data)]
    {
      ghost var before := bc.buf;
      bc.Set(b, data, bc.buf[b].dirty);
      PinsKept(before, bc.buf, lh);
    }

    /** brelse. A buffer with new data must have been through LogWrite first. */
    method Brelse(b: nat)
      requires Ready() && b < NBUF && bc.buf[b].busy
      requires b in mine ==> bc.buf[b].data == View()[bc.buf[b].sector]
      modifies this`mine, bc
      ensures Ready() && View() == old(View()) && bc.writes == old(bc.writes)
      ensures mine == old(mine) - {b}
      ensures bc.buf == old(bc.buf)[b := old(bc.buf[b]).(busy := false)]
    {
      ghost var before := bc.buf;
      bc.Brelse(b);
      mine := mine - {b};
      PinsKept(before, bc.buf, lh);
      if b in old(mine) && !bc.buf[b].dirty {
        CleanIsNotLogged(bc.buf, lh, b);
      }
    }

    /** Stable, outside any transaction's use of buffers: no log sector is busy. */
    ghost predicate Settled(t: nat)
      reads this, bc
    {
      && Stable(t) && mine == {}
      && (forall b :: 0 <= b < NBUF && bc.buf[b].busy ==> !InLog(g, bc.buf[b].sector))
    }

    ghost predicate Idle()
      reads bc
    {
      forall b :: 0 <= b < |bc.buf| ==> !bc.buf[b].busy
    }

    /** Nothing is busy, and not everything can be pinned: bget finds a buffer. */
    ghost predicate Roomy()
      reads this, bc
    {
      Idle() && (|lh| < NBUF || forall b :: 0 <= b < |bc.buf| ==> !bc.buf[b].dirty)
    }

    lemma NoRoom(t: nat)
      requires Stable(t) && mine == {}
      requires forall c :: 0 <= c < NBUF ==> bc.buf[c].busy || bc.buf[c].dirty
      ensures !Roomy()
    {
      if Roomy() {
        assert bc.buf[0].dirty;
        SomeClean(g, bc.disk, lh, t, bc.buf);
      }
    }

    /** The loop of write_head over the header block. */
    method EncodeHead(b: Block) returns (data: Block)
      requires |lh| <= LOGSIZE && forall i :: 0 <= i < |lh| ==> lh[i] < UINT_LIMIT
      ensures data == PutHead(b, lh, |lh|)
    {
      data := PutWord(b, 0, |lh|);
      var i := 0;
      while i < |lh|
        invariant 0 <= i <= |lh|
        invariant data == PutHead(b, lh, i)
      {
        data := PutWord(data, i + 1, lh[i]);
        i := i + 1;
      }
    }

    /** write_head: the in-memory header goes to disk. Fails only when all buffers are busy or
        pinned. */
    method WriteHead(ghost t: nat) returns (ok: bool)
      requires Settled(t)
      modifies bc
      ensures ok ==>
                && Settled(t)
                && bc.disk == old(bc.disk)[g.start := PutHead(old(bc.disk)[g.start], lh, |lh|)]
                && bc.writes == old(bc.writes) + [Write(g.start, PutHead(old(bc.disk)[g.start], lh, |lh|))]
                && (AllPinned(old(bc.buf), lh) ==> AllPinned(bc.buf, lh))
                && (old(Roomy()) ==> Roomy())
      ensures !ok ==> bc.writes == old(bc.writes) && !old(Roomy())
    {
      hide Bcache.RingOk, PutHead, AllPinned, ApplyAll, InRange;
      var b;
      b, ok := Get(g.start, t);
      if !ok {
        NoRoom(t);
        return;
      }
      var data := EncodeHead(bc.buf[b].data);
      ghost var mid := bc.buf;
      bc.Store(b, data);
      bc.Brelse(b);
      HeaderKeepsCoherent(g, old(bc.disk), lh, t, mid, bc.buf, b, data);
    }

    /** The home buffer of slot t is at hand, or can be read without waiting. */
    ghost predicate CanInstall(t: nat)
      reads this, bc
    {
      || (forall i :: t <= i < |lh| ==> Pinned(bc.buf, lh[i]))
      || (Idle() && forall b :: 0 <= b < |bc.buf| ==> !bc.buf[b].dirty)
    }

    /** The two breads of install_trans: log block t in buffer l, its home sector in buffer h. */
    method FetchPair(t: nat, k: nat) returns (l: nat, h: nat, ok: bool)
      requires Settled(t) && CanInstall(t) && t < |lh| && k == g.start + 1 + t
      modifies bc
      ensures Stable(t) && bc.disk == old(bc.disk) && bc.writes == old(bc.writes)
      ensures ok ==> l < NBUF && h < NBUF && PairGot(old(bc.buf), bc.buf, l, k, h, lh[t], bc.disk)
      ensures !ok ==> !old(Roomy())
    {
      hide Bcache.RingOk, ApplyAll, InRange, Slot, Overlaid, BufferGot, PairGot, Unique, AllPinned;
      h := HEAD;
      l, ok := Get(k, t);
      if !ok {
        NoRoom(t);
        return;
      }
      ghost var buf1 := bc.buf;
      assert bc.buf[l].data == bc.disk[k] && !bc.buf[l].dirty;
      HomeBufferAvailable(old(bc.buf), buf1, l, k, bc.disk, lh, t);
      h, ok := Get(lh[t], t);
      PairFromGets(old(bc.buf), buf1, bc.buf, l, k, h, lh[t], bc.disk);
    }

    /** One round of install_trans: copy log block t to its home. */
    method InstallOne(t: nat) returns (ok: bool)
      requires Settled(t) && CanInstall(t) && t < |lh|
      modifies bc
      ensures ok ==>
                && Settled(t + 1) && CanInstall(t + 1)
                && bc.disk == old(bc.disk)[lh[t] := LogBlock(g, old(bc.disk), t)]
                && bc.writes == old(bc.writes) + [Write(lh[t], LogBlock(g, old(bc.disk), t))]
                && (old(Roomy()) ==> Roomy())
      ensures !ok ==> bc.writes == old(bc.writes) && !old(Roomy())
    {
      hide Bcache.RingOk, ApplyAll, InRange, Slot, Overlaid, Unique, Coherent;
      var l, h;
      l, h, ok := FetchPair(t, g.start + 1 + t);
      if ok {
        ghost var mid := bc.buf;
        bc.Store(h, bc.buf[l].data);
        bc.Brelse(l);
        bc.Brelse(h);
        InstallKeepsCoherent(g, old(bc.disk), lh, t, mid, bc.buf, l, h);
      }
    }

    /** install_trans: every log block goes home. */
    method InstallTrans() returns (ok: bool)
      requires Settled(0) && CanInstall(0)
      modifies bc
      ensures ok ==>
                && Settled(|lh|)
                && bc.disk == ApplyAll(old(bc.disk), InstallWrites(g, old(bc.disk), lh, |lh|))
                && bc.writes == old(bc.writes) + InstallWrites(g, old(bc.disk), lh, |lh|)
                && (old(Roomy()) ==> Roomy())
      ensures !ok ==>
                && !old(Roomy())
                && PrefixAdded(old(bc.writes), bc.writes, InstallWrites(g, old(bc.disk), lh, |lh|))
    {
      hide Bcache.RingOk, Slot, Coherent, Unique, ApplyAll;
      var tail := 0;
      ghost var d0 := bc.disk;
      ok := true;
      InstallBase(g, d0, lh);
      while tail < |lh|
        invariant ok && 0 <= tail <= |lh|
        invariant Settled(tail) && CanInstall(tail)
        invariant bc.disk == ApplyAll(d0, InstallWrites(g, d0, lh, tail))
        invariant bc.writes == old(bc.writes) + InstallWrites(g, d0, lh, tail)
        invariant old(Roomy()) ==> Roomy()
      {
        ghost var ws := InstallWrites(g, d0, lh, tail);
        InstallNext(g, d0, lh, tail);
        ok := InstallOne(tail);
        if !ok {
          assert ws == InstallWrites(g, d0, lh, |lh|)[..tail];
          return;
        }
        tail := tail + 1;
      }
    }

    /** read_head: the on-disk header becomes the in-memory one. */
    method ReadHead() returns (ok: bool)
      requires Settled(0) && lh == [] && GoodHead(g, bc.disk) && Idle()
      modifies this`lh, bc
      ensures ok && Settled(0) && Idle() && bc.disk == old(bc.disk) && bc.writes == old(bc.writes)
      ensures lh == HeadOf(bc.disk[g.start])
      ensures forall b :: 0 <= b < NBUF ==> !bc.buf[b].dirty
    {
      hide Bcache.RingOk, ApplyAll, InRange, Unique;
      var b;
      b, ok := Get(g.start, 0);
      if !ok {
        SomeClean(g, bc.disk, lh, 0, bc.buf);
        return;
      }
      lh := DecodeHead(bc.buf[b].data);
      bc.Brelse(b);
    }

    /** The loop of read_head over the header block. */
    static method DecodeHead(b: Block) returns (secs: seq<nat>)
      requires Word(b, 0) <= LOGSIZE
      ensures secs == HeadOf(b)
    {
      var n: nat := Word(b, 0);
      secs := [];
      while |secs| < n
        invariant |secs| <= n && forall j :: 0 <= j < |secs| ==> secs[j] == Word(b, j + 1)
      {
        secs := secs + [Word(b, |secs| + 1)];
      }
    }

    /** Once everything is installed, the in-memory log can be emptied. */
    method Forget()
      requires Settled(|lh|)
      modifies this`lh
      ensures lh == [] && Settled(0)
    {
      hide Bcache.RingOk, ApplyAll, InRange, Unique;
      lh := [];
    }

    /** install_trans, lh.n = 0, write_head: the common end of recovery and commit. */
    method Redo() returns (ok: bool)
      requires Settled(0) && CanInstall(0)
      modifies this`lh, bc
      ensures ok ==>
                && Settled(0) && lh == []
                && bc.disk == ApplyAll(old(bc.disk), RedoWrites(g, old(bc.disk), old(lh)))
                && bc.writes == old(bc.writes) + RedoWrites(g, old(bc.disk), old(lh))
                && (old(Roomy()) ==> Roomy())
      ensures !ok ==>
                && !old(Roomy())
                && PrefixAdded(old(bc.writes), bc.writes, RedoWrites(g, old(bc.disk), old(lh)))
    {
      hide Bcache.RingOk, Slot, Coherent, Unique, ApplyAll, PutHead, InstallWrites, PrefixAdded;
      ghost var d0, secs := bc.disk, lh;
      ghost var installs := InstallWrites(g, d0, secs, |secs|);
      RedoLast(g, d0, secs);
      ok := InstallTrans();
      if ok {
        PrefixWhole(old(bc.writes), installs);
        Forget();
        ok := WriteHead(0);
      }
      if !ok {
        PrefixOfConcat(old(bc.writes), bc.writes, installs, [Write(g.start, PutHead(d0[g.start], [], 0))]);
      }
    }

    /** recover_from_log. */
    method RecoverFromLog() returns (ok: bool)
      requires Settled(0) && lh == [] && GoodHead(g, bc.disk) && Idle()
      modifies this`lh, bc
      ensures ok && Settled(0) && lh == [] && Idle()
      ensures bc.disk == ApplyAll(old(bc.disk), RedoWrites(g, old(bc.disk), HeadOf(old(bc.disk)[g.start])))
      ensures bc.writes == old(bc.writes) + RedoWrites(g, old(bc.disk), HeadOf(old(bc.disk)[g.start]))
    {
      hide Bcache.RingOk, Slot, Coherent, Unique, ApplyAll, RedoWrites;
      ok := ReadHead();
      ok := Redo();
    }

    /** begin_trans, one test of log.busy: the caller sleeps and retries while it fails. */
    method BeginTrans() returns (ok: bool)
      requires Ready()
      modifies this`busy
      ensures Ready() && busy && View() == old(View())
      ensures ok <==> !old(busy)
    {
      ok := !busy;
      busy := true;
    }

    /** The absorption loop of log_write. */
    method FindSlot(s: nat) returns (i: nat)
      ensures i == Slot(lh, s)
    {
      i := 0;
      while i < |lh| && lh[i] != s
        invariant 0 <= i <= |lh|
        invariant forall j :: 0 <= j < i ==> lh[j] != s
      {
        i := i + 1;
      }
      SlotUnique(lh, s, i);
    }

    /** log_write: append the block to the log and keep it cached. It panics when the log is full,
        outside a transaction, or when no buffer is left for the log block. */
    method LogWrite(b: nat) returns (ok: bool)
      requires Ready() && b < NBUF && bc.buf[b].busy && (busy ==> b in mine)
      modifies this`lh, bc
      ensures ok ==> Ready() && bc.buf[b] == old(bc.buf[b]).(dirty := true)
      ensures ok ==> Appended(g, old(bc.disk), old(lh), bc.disk, lh, old(bc.buf[b]).sector, old(bc.buf[b]).data)
      ensures ok ==> View() == old(View())[old(bc.buf[b]).sector := old(bc.buf[b]).data]
      ensures ok ==> bc.writes == old(bc.writes) + [AppendedWrite(g, old(lh), old(bc.buf[b]))]
      ensures ok ==> OneBesides(old(bc.buf), bc.buf, b, AppendedWrite(g, old(lh), old(bc.buf[b])).sector)
      ensures !ok ==> bc.writes == old(bc.writes)
      ensures !ok <==> || |old(lh)| >= Capacity(g) || !busy
                       || NoBufferFor(old(bc.buf), AppendedWrite(g, old(lh), old(bc.buf[b])).sector)
    {
      hide Bcache.RingOk, ApplyAll, InRange, Slot, Overlaid, Overlay, NoBufferFor, Quiet, Unique, Coherent,
           AllPinned, Append, Absorb, Appended, OneBesides;
      if |lh| >= LOGSIZE || |lh| >= g.size - 1 || !busy {
        return false;
      }
      var s := bc.buf[b].sector;
      var i := FindSlot(s);
      HeldInTransaction(g, bc.disk, lh, bc.buf, mine, b);
      ok := AppendBlock(b, s, i, g.start + 1 + i);
      if ok {
        AppendedView(g, old(bc.disk), old(lh), bc.disk, lh, s, old(bc.buf[b]).data);
      }
    }

    /** The rest of log_write: the block goes to log block i, that is, to sector k. */
    method AppendBlock(b: nat, s: nat, i: nat, k: nat) returns (ok: bool)
      requires Ready() && b < NBUF && b in mine && |lh| < Capacity(g)
      requires s == bc.buf[b].sector && i == Slot(lh, s) && k == g.start + 1 + i
      modifies this`lh, bc
      ensures ok ==> Ready() && bc.buf[b] == old(bc.buf[b]).(dirty := true)
      ensures ok ==> Appended(g, old(bc.disk), old(lh), bc.disk, lh, s, old(bc.buf[b]).data)
      ensures ok ==> bc.writes == old(bc.writes) + [Write(k, old(bc.buf[b]).data)]
      ensures ok ==> OneBesides(old(bc.buf), bc.buf, b, k)
      ensures !ok ==> bc.writes == old(bc.writes)
      ensures !ok <==> NoBufferFor(old(bc.buf), k)
    {
      hide Bcache.RingOk, ApplyAll, InRange, Slot, Overlaid, Overlay, Unique, AllPinned, Quiet, Coherent, Append;
      var data := bc.buf[b].data;
      HeldInTransaction(g, bc.disk, lh, bc.buf, mine, b);
      var l;
      l, ok := FetchLogBlock(b, k);
      if ok {
        ghost var mid := bc.buf;
        bc.Store(l, data);
        bc.Brelse(l);
        lh := if i == |lh| then lh + [s] else lh[i := s];
        assert lh == Absorb(old(lh), s);
        bc.Set(b, data, true);
        LogWriteKeepsCoherent(g, old(bc.disk), old(lh), mid, bc.buf, l, k, b, mine);
        QuietAfterAppend(g, old(bc.disk), old(lh), s, data);
      }
    }

    /** bread of the log block at sector k while holding buffer b. */
    method FetchLogBlock(b: nat, k: nat) returns (l: nat, ok: bool)
      requires Ready() && b < NBUF && b in mine && InLog(g, k) && k < |bc.disk|
      modifies bc
      ensures Stable(0) && AllPinned(bc.buf, lh) && bc.disk == old(bc.disk) && bc.writes == old(bc.writes)
      ensures ok ==>
                && l < NBUF && l != b && bc.buf[b] == old(bc.buf)[b]
                && IsFor(bc.buf[l], k) && bc.buf[l].busy && bc.buf[l].valid && !bc.buf[l].dirty
                && (forall c :: 0 <= c < NBUF && c != l ==> bc.buf[c] == old(bc.buf)[c])
      ensures !ok <==> NoBufferFor(old(bc.buf), k)
    {
      hide Bcache.RingOk, ApplyAll, InRange, Slot, Overlaid, Overlay, Unique, BufferGot, AllPinned, Quiet;
      assert Held(g, bc.disk, lh, bc.buf[b]);
      l, ok := Get(k, 0);
      if ok {
        GotAnother(old(bc.buf), bc.buf, l, k, bc.disk, b);
      }
    }

    /** commit_trans: header, installs, cleared header; after it the home sectors hold what the
        transaction saw. A panic on the way leaves a prefix of those writes, as a crash would; it
        cannot happen while no buffer is busy and fewer than NBUF sectors are logged. */
    method CommitTrans() returns (ok: bool)
      requires Ready() && busy && mine == {}
      modifies this`lh, this`busy, bc
      ensures ok ==> Ready() && !busy && View() == old(View()) && HomeMap(g, bc.disk) == old(View())
      ensures ok ==> bc.writes == old(bc.writes) + CommitWrites(g, old(bc.disk), old(lh))
      ensures !ok ==> PrefixAdded(old(bc.writes), bc.writes, CommitWrites(g, old(bc.disk), old(lh)))
      ensures !ok ==> old(lh) != [] && !old(Roomy())
      ensures ok && old(Roomy()) ==> Roomy()
    {
      hide Bcache.RingOk, Slot, Coherent, Unique, ApplyAll, Overlay, HomeMap, GoodHead, PrefixAdded;
      ok := true;
      if |lh| > 0 {
        ok := CommitLogged();
      } else {
        EmptyOverlay(g, bc.disk);
      }
      if ok {
        busy := false;
      }
    }

    /** commit_trans with something logged. */
    method CommitLogged() returns (ok: bool)
      requires Ready() && busy && mine == {} && lh != []
      modifies this`lh, bc
      ensures ok ==> Ready() && lh == [] && View() == old(View()) && HomeMap(g, bc.disk) == old(View())
      ensures ok ==> bc.writes == old(bc.writes) + CommitWrites(g, old(bc.disk), old(lh))
      ensures !ok ==> PrefixAdded(old(bc.writes), bc.writes, CommitWrites(g, old(bc.disk), old(lh)))
      ensures !ok ==> !old(Roomy())
      ensures ok && old(Roomy()) ==> Roomy()
    {
      hide Bcache.RingOk, Slot, Coherent, Unique, ApplyAll, Overlay, HomeMap, PutHead, RedoWrites, GoodHead,
           CommitWrites, PrefixAdded, Quiet, InRange, Faithful;
      CommitLast(g, bc.disk, lh);
      ghost var w0, h := bc.writes, Write(g.start, PutHead(bc.disk[g.start], lh, |lh|));
      ok := WriteHead(0);
      if ok {
        ghost var rs := RedoWrites(g, bc.disk, lh);
        assert w0 + [h] + rs == w0 + ([h] + rs);
        ok := Redo();
        if !ok {
          PrefixAfter(w0, bc.writes, [h], rs);
        }
      } else {
        PrefixNone(w0, CommitWrites(g, old(bc.disk), lh));
      }
    }

    /** A whole transaction, written the way log_write is meant to be used: for every block bread,
        modify, log_write, brelse; then commit. Its sector writes are exactly those of the
        transaction, so the crash theorems speak about this code; a panic leaves a prefix of them, as
        a crash would. With no buffer busy it panics exactly when the transaction logs as many
        sectors as there are buffers. */
    method RunTransaction(tx: Transaction) returns (ok: bool)
      requires Ready() && !busy && Legal(g, bc.disk, tx)
      modifies this, bc
      ensures ok ==> Ready() && !busy && View() == Effect(old(View()), tx)
      ensures ok ==> bc.writes == old(bc.writes) + TransactionWrites(g, old(bc.disk), tx)
      ensures !ok ==> PrefixAdded(old(bc.writes), bc.writes, TransactionWrites(g, old(bc.disk), tx))
      ensures old(Idle()) ==> (ok <==> |LoggedSectors(tx)| < NBUF) && (ok ==> Idle())
    {
      hide Bcache.RingOk, Slot, Coherent, Unique, ApplyAll, Overlay, HomeMap, GoodHead, CommitWrites, Legal, Quiet,
           InRange, Faithful, AppendWrites, LoggedSectors, Effect, GoodSectors, AllPinned, PrefixAdded,
           TransactionWrites;
      ghost var d0, w0 := bc.disk, bc.writes;
      ok := BeginTrans();
      ok := LogAll(tx);
      if ok {
        Appends(g, d0, tx);
        ok := CommitTrans();
        CommitsLast(g, d0, w0, bc.writes, tx, ok);
      }
    }

    /** A transaction that panics before it commits: its log_write calls alone. */
    method RunUnfinished(tx: Transaction) returns (ok: bool)
      requires Ready() && !busy && Legal(g, bc.disk, tx)
      modifies this, bc
      ensures ok ==> bc.writes == old(bc.writes) + AppendWrites(g, tx)
      ensures ok ==> InRange(old(bc.disk), AppendWrites(g, tx))
                     && bc.disk == ApplyAll(old(bc.disk), AppendWrites(g, tx))
      ensures !ok ==> PrefixAdded(old(bc.writes), bc.writes, TransactionWrites(g, old(bc.disk), tx))
      ensures old(Idle()) ==> (ok <==> |LoggedSectors(tx)| < NBUF)
    {
      hide Bcache.RingOk, Slot, Coherent, Unique, ApplyAll, Overlay, HomeMap, GoodHead, CommitWrites, Legal, Quiet,
           InRange, Faithful, AppendWrites, LoggedSectors, Effect, GoodSectors, AllPinned, PrefixAdded,
           TransactionWrites;
      ok := BeginTrans();
      ok := LogAll(tx);
    }

    /** The log_write calls of a transaction, in order. */
    method LogAll(tx: Transaction) returns (ok: bool)
      requires Ready() && busy && mine == {} && lh == [] && Legal(g, bc.disk, tx)
      modifies this`lh, this`mine, bc
      ensures ok ==> Ready() && busy && mine == {} && lh == LoggedSectors(tx) && View() == Effect(old(View()), tx)
      ensures ok ==> InRange(old(bc.disk), AppendWrites(g, tx))
                     && bc.disk == ApplyAll(old(bc.disk), AppendWrites(g, tx))
      ensures ok ==> bc.writes == old(bc.writes) + AppendWrites(g, tx)
      ensures !ok ==> PrefixAdded(old(bc.writes), bc.writes, TransactionWrites(g, old(bc.disk), tx))
      ensures old(Idle()) ==> (ok <==> |LoggedSectors(tx)| < NBUF) && (ok ==> Idle())
    {
      hide Bcache.RingOk, Slot, Coherent, Unique, ApplyAll, Overlay, HomeMap, GoodHead, CommitWrites, Legal, Quiet,
           InRange, Faithful, AppendWrites, LoggedSectors, Effect, GoodSectors, AllPinned, PrefixAdded,
           TransactionWrites;
      ghost var d0, w0, v0 := bc.disk, bc.writes, View();
      ok := true;
      var i := 0;
      NothingLogged(g, d0, tx);
      while i < |tx|
        invariant 0 <= i <= |tx| && ok
        invariant Ready() && busy && mine == {}
        invariant lh == LoggedSectors(tx[..i]) && View() == Effect(v0, tx[..i])
        invariant InRange(d0, AppendWrites(g, tx[..i])) && bc.disk == ApplyAll(d0, AppendWrites(g, tx[..i]))
        invariant bc.writes == w0 + AppendWrites(g, tx[..i])
        invariant old(Idle()) ==> Idle() && |lh| < NBUF
      {
        LegalPrefix(g, d0, tx, i + 1);
        assert tx[..i + 1] == tx[..i] + [tx[i]];
        OneMoreCall(g, d0, v0, tx[..i], tx[i], tx[..i + 1]);
        OneMoreAppend(g, d0, tx[..i], tx[i], tx[..i + 1]);
        ok := LogOne(tx[i].sector, tx[i].data);
        if !ok {
          LoggedGrows(tx, i + 1);
          AppendsAreFirst(g, d0, w0, tx, i);
          return;
        }
        i := i + 1;
      }
      assert tx[..i] == tx;
    }

    /** bread, modify, log_write, brelse of one block. With no other buffer busy it fails exactly when
        the sectors logged would be as many as the buffers. */
    method LogOne(s: nat, data: Block) returns (ok: bool)
      requires Ready() && busy && mine == {} && s < |bc.disk| && !InLog(g, s) && |lh| < Capacity(g)
      modifies this`lh, this`mine, bc
      ensures ok ==> Ready() && mine == {} && View() == old(View())[s := data]
      ensures ok ==> Appended(g, old(bc.disk), old(lh), bc.disk, lh, s, data)
      ensures ok ==> bc.writes == old(bc.writes) + [Write(g.start + 1 + Slot(old(lh), s), data)]
      ensures !ok ==> bc.writes == old(bc.writes)
      ensures old(Idle()) ==> (ok <==> |Absorb(old(lh), s)| < NBUF) && (ok ==> Idle())
    {
      hide Bcache.RingOk, Slot, Coherent, Unique, ApplyAll, Overlay, HomeMap, GoodHead, Quiet, InRange, AllPinned,
           Append, NoBufferFor, OneBesides, GoodSectors, Absorb;
      var b;
      b, ok := Bread(s, true);
      if !ok {
        BreadRoom(s);
        return;
      }
      Modify(b, data);
      ghost var buf1, lh1 := bc.buf, lh;
      if old(Idle()) {
        LogRoom(b, s);
      }
      ok := LogWrite(b);
      if ok {
        LogLeaves(buf1, lh1, b, s);
        Brelse(b);
      }
    }

    /** bread fails only when more sectors are logged than there are buffers. */
    lemma BreadRoom(s: nat)
      requires Ready() && mine == {} && forall c :: 0 <= c < NBUF ==> bc.buf[c].busy || bc.buf[c].dirty
      ensures Idle() ==> |Absorb(lh, s)| >= NBUF
    {
      hide Bcache.RingOk, ApplyAll, InRange, Quiet, Unique, Slot;
      if Idle() {
        NoRoom(0);
      }
    }

    lemma LogRoom(b: nat, s: nat)
      requires Ready() && mine == {b} && b < NBUF && bc.buf[b].sector == s && |lh| < Capacity(g)
      requires forall c :: 0 <= c < NBUF && c != b ==> !bc.buf[c].busy
      ensures NoBufferFor(bc.buf, g.start + 1 + Slot(lh, s)) ==> |Absorb(lh, s)| >= NBUF
    {
      hide Bcache.RingOk, ApplyAll, InRange, Quiet, Unique, Slot, NoBufferFor, Coherent, Absorb;
      if NoBufferFor(bc.buf, g.start + 1 + Slot(lh, s)) {
        Crowded(g, bc.disk, lh, bc.buf, b, g.start + 1 + Slot(lh, s));
      }
    }

    lemma LogLeaves(buf1: seq<Buf>, lh1: seq<nat>, b: nat, s: nat)
      requires Ready() && lh == Absorb(lh1, s) && |lh1| < Capacity(g)
               && OneBesides(buf1, bc.buf, b, g.start + 1 + Slot(lh1, s))
      ensures |Absorb(lh1, s)| < NBUF && |bc.buf| == |buf1| == NBUF
      ensures forall c :: 0 <= c < NBUF && c != b && bc.buf[c].busy ==> buf1[c].busy
    {
      hide Bcache.RingOk, ApplyAll, InRange, Quiet, Unique, Coherent, Absorb;
      var k := g.start + 1 + Slot(lh1, s);
      var l :| 0 <= l < NBUF && l != b && IsFor(bc.buf[l], k);
      assert InLog(g, k) && k !in lh;
      LeavesOne(bc.buf, lh, l, k);
    }
  }

  lemma {:induction false} LoggedGrows(tx: Transaction, k: nat)
    requires k <= |tx|
    ensures |LoggedSectors(tx[..k])| <= |LoggedSectors(tx)|
  {
    if k < |tx| {
      LoggedGrows(tx[..|tx| - 1], k);
      assert tx[..|tx| - 1][..k] == tx[..k];
    } else {
      assert tx[..k] == tx;
    }
  }

  /** The appends are the first writes of a transaction. */
  lemma AppendsAreFirst(g: Geometry, d: Disk, w0: seq<Write>, tx: Transaction, i: nat)
    requires Fits(g, d) && Legal(g, d, tx) && i <= |tx|
    ensures PrefixAdded(w0, w0 + AppendWrites(g, tx[..i]), TransactionWrites(g, d, tx))
  {
    hide AppendWrites, CommitWrites, ApplyAll, LoggedSectors;
    LegalPrefix(g, d, tx, i);
    var ws := TransactionWrites(g, d, tx);
    assert ws[..i] == AppendWrites(g, tx[..i]);
  }

  lemma CommitsLast(g: Geometry, d: Disk, w0: seq<Write>, w: seq<Write>, tx: Transaction, ok: bool)
    requires Fits(g, d) && Legal(g, d, tx) && InRange(d, AppendWrites(g, tx))
    requires var d1 := ApplyAll(d, AppendWrites(g, tx));
             && Fits(g, d1) && GoodSectors(g, d1, LoggedSectors(tx))
             && if ok then w == w0 + AppendWrites(g, tx) + CommitWrites(g, d1, LoggedSectors(tx))
                else PrefixAdded(w0 + AppendWrites(g, tx), w, CommitWrites(g, d1, LoggedSectors(tx)))
    ensures if ok then w == w0 + TransactionWrites(g, d, tx) else PrefixAdded(w0, w, TransactionWrites(g, d, tx))
  {
    hide AppendWrites, CommitWrites, ApplyAll, LoggedSectors, PrefixAdded, GoodSectors, InRange;
    var ws, vs := AppendWrites(g, tx), CommitWrites(g, ApplyAll(d, AppendWrites(g, tx)), LoggedSectors(tx));
    if ok {
      assert w0 + ws + vs == w0 + (ws + vs);
    } else {
      PrefixAfter(w0, w, ws, vs);
    }
  }

  lemma NothingLogged(g: Geometry, d: Disk, tx: Transaction)
    ensures LoggedSectors(tx[..0]) == [] && AppendWrites(g, tx[..0]) == []
    ensures InRange(d, AppendWrites(g, tx[..0])) && ApplyAll(d, AppendWrites(g, tx[..0])) == d
    ensures forall v :: Effect(v, tx[..0]) == v
  {
  }

  /** One more call of a legal transaction finds room and adds one append. */
  lemma OneMoreCall(g: Geometry, d: Disk, v: map<nat, Block>, before: Transaction, w: Write, after: Transaction)
    requires after == before + [w] && Fits(g, d) && Legal(g, d, after)
    ensures w.sector < |d| && !InLog(g, w.sector) && |LoggedSectors(before)| < Capacity(g)
    ensures LoggedSectors(after) == Absorb(LoggedSectors(before), w.sector)
    ensures AppendWrites(g, after)
            == AppendWrites(g, before) + [Write(g.start + 1 + Slot(LoggedSectors(before), w.sector), w.data)]
    ensures Effect(v, after) == Effect(v, before)[w.sector := w.data]
  {
    assert after[..|after| - 1] == before;
  }

  lemma OneMoreAppend(g: Geometry, d: Disk, before: Transaction, w: Write, after: Transaction)
    requires after == before + [w] && Fits(g, d) && Legal(g, d, after)
    ensures InRange(d, AppendWrites(g, before)) && InRange(d, AppendWrites(g, after))
    ensures Appended(g, ApplyAll(d, AppendWrites(g, before)), LoggedSectors(before),
                     ApplyAll(d, AppendWrites(g, after)), LoggedSectors(after), w.sector, w.data)
  {
    assert after[..|after| - 1] == before;
    Appends(g, d, before);
    LastAppend(g, d, after);
  }

  /** Recovery run to its end. */
  lemma RecoveredEnd(g: Geometry, d: Disk, secs: seq<nat>)
    requires Fits(g, d) && GoodHead(g, d) && secs == HeadOf(d[g.start])
    ensures var d' := ApplyAll(d, RedoWrites(g, d, secs));
            Quiet(g, d') && Overlay(g, d', []) == RecoveredMap(g, d)
  {
    var ws := RedoWrites(g, d, secs);
    var k := |ws|;
    assert ws[..k] == ws;
    RecoveryCut(g, d, secs, k);
    EmptyOverlay(g, ApplyAll(d, ws));
  }

  /** The writes of a commit: the header, then the redo from there. */
  lemma CommitLast(g: Geometry, d: Disk, secs: seq<nat>)
    requires Fits(g, d) && GoodSectors(g, d, secs) && secs != []
    ensures var header := PutHead(d[g.start], secs, |secs|);
            var d1 := d[g.start := header];
            && GoodSectors(g, d1, secs)
            && CommitWrites(g, d, secs) == [Write(g.start, header)] + RedoWrites(g, d1, secs)
            && ApplyAll(d, CommitWrites(g, d, secs)) == ApplyAll(d1, RedoWrites(g, d1, secs))
    ensures var d' := ApplyAll(d, CommitWrites(g, d, secs));
            && Quiet(g, d') && Overlay(g, d', []) == Overlay(g, d, secs) && HomeMap(g, d') == Overlay(g, d, secs)
  {
    var k := |secs| + 2;
    var ws := CommitWrites(g, d, secs);
    assert ws[..k] == ws;
    DiskAfterHeader(g, d, secs, k);
    var d1 := d[g.start := PutHead(d[g.start], secs, |secs|)];
    var rs := RedoWrites(g, d1, secs);
    assert rs[..k - 1] == rs;
    CommittedCut(g, d, secs, k);
    EmptyOverlay(g, ApplyAll(d, ws));
  }

  lemma HeldInTransaction(g: Geometry, disk: Disk, lh: seq<nat>, buf: seq<Buf>, mine: set<nat>, b: nat)
    requires Fits(g, disk) && |lh| <= Capacity(g) && Coherent(g, disk, lh, 0, buf, mine) && b in mine && b < |buf|
    ensures Held(g, disk, lh, buf[b])
  {
  }

  lemma QuietAfterAppend(g: Geometry, d: Disk, lh: seq<nat>, s: nat, data: Block)
    requires Fits(g, d) && |lh| < Capacity(g) && Quiet(g, d)
    ensures Append(g, d, lh, s, data) == d[g.start + 1 + Slot(lh, s) := data]
    ensures Quiet(g, Append(g, d, lh, s, data))
  {
  }

  /** Getting sector k leaves a held buffer of another sector alone. */
  lemma GotAnother(before: seq<Buf>, after: seq<Buf>, l: nat, k: nat, disk: Disk, b: nat)
    requires |before| == NBUF && l < NBUF && b < NBUF && k < |disk| && BufferGot(before, after, l, k, disk)
    requires before[b].busy && !IsFor(before[b], k)
    ensures l != b && |after| == NBUF && after[b] == before[b]
    ensures IsFor(after[l], k) && after[l].busy && after[l].valid
    ensures !NoBufferFor(before, k)
    ensures forall c :: 0 <= c < NBUF && c != l ==> after[c] == before[c]
  {
  }

  /** The disk and the logged sectors after log_write. */
  ghost predicate Appended(g: Geometry, d: Disk, lh: seq<nat>, d': Disk, lh': seq<nat>, s: nat, data: Block) {
    g.start + 1 + |lh| < |d| && d' == Append(g, d, lh, s, data) && lh' == Absorb(lh, s)
  }

  lemma AppendedView(g: Geometry, d: Disk, lh: seq<nat>, d': Disk, lh': seq<nat>, s: nat, data: Block)
    requires Fits(g, d) && GoodSectors(g, d, lh) && |lh| < Capacity(g) && s < |d| && !InLog(g, s)
    requires Appended(g, d, lh, d', lh', s, data)
    ensures Fits(g, d') && |lh'| <= Capacity(g) && Overlay(g, d', lh') == Overlay(g, d, lh)[s := data]
  {
    AppendStep(g, d, lh, s, data);
  }

  /** The sector write that log_write issues. */
  function AppendedWrite(g: Geometry, lh: seq<nat>, b: Buf): Write {
    Write(g.start + 1 + Slot(lh, b.sector), b.data)
  }

  /** Sector k is not cached and every buffer is busy or pinned: bget panics. */
  ghost predicate NoBufferFor(buf: seq<Buf>, k: nat) {
    forall c :: 0 <= c < |buf| ==> !IsFor(buf[c], k) && (buf[c].busy || buf[c].dirty)
  }

  /** Besides the buffer b itself, log_write has used one buffer, for the log block k, and released it. */
  ghost predicate OneBesides(before: seq<Buf>, after: seq<Buf>, b: nat, k: nat) {
    && |after| == |before| == NBUF
    && (exists l :: 0 <= l < NBUF && l != b && IsFor(after[l], k))
    && (forall c :: 0 <= c < NBUF && c != b && after[c].busy ==> before[c].busy)
  }

  /** The last write of a redo clears the header that was there at the start. */
  lemma RedoLast(g: Geometry, d: Disk, secs: seq<nat>)
    requires Fits(g, d) && GoodSectors(g, d, secs)
    ensures var installs := InstallWrites(g, d, secs, |secs|);
            var d1 := ApplyAll(d, installs);
            var clear := Write(g.start, PutHead(d1[g.start], [], 0));
            && RedoWrites(g, d, secs) == installs + [clear]
            && ApplyAll(d, RedoWrites(g, d, secs)) == d1[g.start := clear.data]
  {
    InstallPrefix(g, d, secs, |secs|);
    ApplyOneMore(d, InstallWrites(g, d, secs, |secs|), Write(g.start, PutHead(d[g.start], [], 0)));
  }

  /** w is w0 followed by the first few writes of ws. */
  ghost predicate PrefixAdded(w0: seq<Write>, w: seq<Write>, ws: seq<Write>) {
    exists k :: 0 <= k <= |ws| && w == w0 + ws[..k]
  }

  lemma PrefixNone(w0: seq<Write>, ws: seq<Write>)
    ensures PrefixAdded(w0, w0, ws)
  {
    assert w0 == w0 + ws[..0];
  }

  lemma PrefixWhole(w0: seq<Write>, ws: seq<Write>)
    ensures PrefixAdded(w0, w0 + ws, ws)
  {
    assert ws[..|ws|] == ws;
  }

  lemma PrefixOfConcat(w0: seq<Write>, w: seq<Write>, ws: seq<Write>, vs: seq<Write>)
    requires PrefixAdded(w0, w, ws)
    ensures PrefixAdded(w0, w, ws + vs)
  {
    var k :| 0 <= k <= |ws| && w == w0 + ws[..k];
    assert ws[..k] == (ws + vs)[..k];
  }

  lemma PrefixAfter(w0: seq<Write>, w: seq<Write>, ws: seq<Write>, vs: seq<Write>)
    requires PrefixAdded(w0 + ws, w, vs)
    ensures PrefixAdded(w0, w, ws + vs)
  {
    var k :| 0 <= k <= |vs| && w == w0 + ws + vs[..k];
    var j := |ws| + k;
    assert (ws + vs)[..j] == ws + vs[..k];
    assert w == w0 + (ws + vs)[..j];
  }

  lemma InstallBase(g: Geometry, d: Disk, secs: seq<nat>)
    requires Fits(g, d) && GoodSectors(g, d, secs)
    ensures InstallWrites(g, d, secs, 0) == []
    ensures ApplyAll(d, InstallWrites(g, d, secs, 0)) == d
  {
  }

  /** One more install is one more write, of the log block that was there at the start. */
  lemma InstallNext(g: Geometry, d: Disk, secs: seq<nat>, t: nat)
    requires Fits(g, d) && GoodSectors(g, d, secs) && t < |secs|
    ensures InstallWrites(g, d, secs, t + 1) == InstallWrites(g, d, secs, t) + [Write(secs[t], LogBlock(g, d, t))]
    ensures var d1 := ApplyAll(d, InstallWrites(g, d, secs, t));
            && LogBlock(g, d1, t) == LogBlock(g, d, t)
            && ApplyAll(d, InstallWrites(g, d, secs, t + 1)) == d1[secs[t] := LogBlock(g, d, t)]
  {
    InstallPrefix(g, d, secs, t);
    var ws := InstallWrites(g, d, secs, t);
    assert InstallWrites(g, d, secs, t + 1) == ws + [Write(secs[t], LogBlock(g, d, t))];
    ApplyOneMore(d, ws, Write(secs[t], LogBlock(g, d, t)));
  }

  lemma HeaderKeepsCoherent(g: Geometry, disk: Disk, lh: seq<nat>, t: nat, mid: seq<Buf>, after: seq<Buf>,
                            b: nat, data: Block)
    requires Fits(g, disk) && GoodSectors(g, disk, lh)
    requires |mid| == NBUF && Unique(mid) && b < NBUF
    requires Coherent(g, disk, lh, t, mid, {})
    requires IsFor(mid[b], g.start) && mid[b].valid && !mid[b].dirty
    requires after == mid[b := mid[b].(data := data, busy := false)]
    ensures Coherent(g, disk[g.start := data], lh, t, after, {})
    ensures AllPinned(mid, lh) ==> AllPinned(after, lh)
  {
    if AllPinned(mid, lh) {
      PinsKept(mid, after, lh);
    }
  }

  /** What the two breads leave behind: l has the clean log block, h the home sector, both busy;
      no other buffer changed, and h is dirty just when it was before. */
  ghost predicate PairGot(before: seq<Buf>, after: seq<Buf>, l: nat, k: nat, h: nat, s: nat, disk: Disk)
    requires |before| == NBUF && l < NBUF && h < NBUF && k < |disk| && s < |disk|
  {
    && |after| == NBUF && l != h
    && IsFor(after[l], k) && after[l].busy && after[l].valid && !after[l].dirty && after[l].data == disk[k]
    && IsFor(after[h], s) && after[h].busy && after[h].valid
    && (before[h].dirty ==> IsFor(before[h], s) && after[h].dirty)
    && (after[h].dirty ==> before[h].dirty) && !before[l].dirty
    && (forall c :: 0 <= c < NBUF && c != l && c != h ==> after[c] == before[c])
  }

  lemma PairFromGets(b0: seq<Buf>, b1: seq<Buf>, b2: seq<Buf>, l: nat, k: nat, h: nat, s: nat, disk: Disk)
    requires |b0| == NBUF && l < NBUF && h < NBUF && k < |disk| && s < |disk| && k != s
    requires BufferGot(b0, b1, l, k, disk) && BufferGot(b1, b2, h, s, disk)
    requires b1[l].data == disk[k] && !b1[l].dirty
    ensures PairGot(b0, b2, l, k, h, s, disk)
  {
  }

  /** With the log block in buffer l, the home sector still finds a buffer. */
  lemma HomeBufferAvailable(before: seq<Buf>, buf: seq<Buf>, l: nat, k: nat, disk: Disk, lh: seq<nat>, t: nat)
    requires |before| == NBUF && l < NBUF && k < |disk| && t < |lh|
    requires BufferGot(before, buf, l, k, disk)
    requires || Pinned(before, lh[t])
             || forall b :: 0 <= b < |before| ==> !before[b].busy && !before[b].dirty
    ensures exists c :: 0 <= c < NBUF && (IsFor(buf[c], lh[t]) || !(buf[c].busy || buf[c].dirty))
  {
    if Pinned(before, lh[t]) {
      var c :| 0 <= c < |before| && before[c].dirty && IsFor(before[c], lh[t]);
      assert IsFor(buf[c], lh[t]);
    } else {
      var c := if l == 0 then 1 else 0;
      assert !buf[c].busy && !buf[c].dirty;
    }
  }
}
