/** The buffer cache of xv6/bio.c over the synchronous disk of xv6/memide.c. Every critical
    section under bcache.lock is one method; Valid() is what all of them keep, so it holds
    under every interleaving of them. */
module BufferCache {
  import opened Blocks
  import opened LogSpec

  const NBUF := 10
  /** The index of bcache.head among the list nodes; buffers have indices below it. */
  const HEAD := NBUF
  const ROOTDEV := 1

  /** struct buf without its list links. */
  datatype Buf = Buf(busy: bool, valid: bool, dirty: bool, dev: int, sector: nat, data: Block)

  /** What one pass of bget ends in: the cached buffer, the cached buffer but busy (sleep and
      rescan), a recycled buffer, or the panic "bget: no buffers". */
  datatype GetResult = Hit(b: nat) | Wait(b: nat) | Recycled(b: nat) | NoBuffers

  // ---------- the doubly linked ring ----------

  /** The i-th node on the ring, counting from the head through `next` and back to the head. */
  function Node(ring: seq<nat>, i: nat): (n: nat)
    requires i <= |ring| + 1
  {
    if i == 0 || i == |ring| + 1 then HEAD else ring[i - 1]
  }

  ghost predicate Distinct(ring: seq<nat>) {
    && (forall i :: 0 <= i < |ring| ==> ring[i] < NBUF)
    && (forall i, j :: 0 <= i < j < |ring| ==> ring[i] != ring[j])
  }

  /** The links, followed from the head, visit exactly `ring` forwards and its reverse backwards. */
  ghost predicate Linked(next: seq<nat>, prev: seq<nat>, ring: seq<nat>) {
    && |next| == NBUF + 1 && |prev| == NBUF + 1
    && Distinct(ring)
    && (forall i :: 0 <= i <= |ring| ==> next[Node(ring, i)] == Node(ring, i + 1))
    && (forall i :: 1 <= i <= |ring| + 1 ==> prev[Node(ring, i)] == Node(ring, i - 1))
  }

  /** The ring without its i-th buffer. */
  function Without(ring: seq<nat>, i: nat): (r: seq<nat>)
    requires i < |ring|
  {
    ring[..i] + ring[i + 1..]
  }

  /** On a ring, only the head is met twice: at the start and at the end. */
  lemma NodesDiffer(ring: seq<nat>, i: nat, j: nat)
    requires Distinct(ring) && i < j <= |ring| + 1 && (i > 0 || j <= |ring|)
    ensures Node(ring, i) != Node(ring, j)
  {
  }

  lemma UnlinkKeepsLinked(next: seq<nat>, prev: seq<nat>, ring: seq<nat>, i: nat)
    requires Linked(next, prev, ring) && i < |ring|
    ensures var b := ring[i];
            && next[b] <= NBUF && prev[b] <= NBUF
            && Linked(next[prev[b] := next[b]], prev[next[b] := prev[b]], Without(ring, i))
  {
    var b := ring[i];
    assert b == Node(ring, i + 1);
    assert next[b] == Node(ring, i + 2) && prev[b] == Node(ring, i);
    var r := Without(ring, i);
    var next', prev' := next[prev[b] := next[b]], prev[next[b] := prev[b]];
    forall k | 0 <= k <= |r| + 1 ensures Node(r, k) == Node(ring, if k <= i then k else k + 1) {
    }
    forall k | 0 <= k <= |r| ensures next'[Node(r, k)] == Node(r, k + 1) {
      if k < i {
        NodesDiffer(ring, k, i);
        assert next[Node(ring, k)] == Node(ring, k + 1);
      } else if k > i {
        NodesDiffer(ring, i, k + 1);
        assert next[Node(ring, k + 1)] == Node(ring, k + 2);
      }
    }
    forall k | 1 <= k <= |r| + 1 ensures prev'[Node(r, k)] == Node(r, k - 1) {
      if k <= i {
        NodesDiffer(ring, k, i + 2);
        assert prev[Node(ring, k)] == Node(ring, k - 1);
      } else if k > i + 1 {
        NodesDiffer(ring, i + 2, k + 1);
        assert prev[Node(ring, k + 1)] == Node(ring, k);
      }
    }
  }

  lemma PushFrontKeepsLinked(next: seq<nat>, prev: seq<nat>, ring: seq<nat>, b: nat)
    requires Linked(next, prev, ring) && b < NBUF && b !in ring
    ensures next[HEAD] <= NBUF
    ensures Linked(next[b := next[HEAD]][HEAD := b], prev[b := HEAD][next[HEAD] := b], [b] + ring)
  {
    assert next[Node(ring, 0)] == Node(ring, 1);
    var r := [b] + ring;
    assert forall k :: 2 <= k <= |ring| + 2 ==> Node(r, k) == Node(ring, k - 1);
  }

  /** The six pointer assignments of brelse, in their order. */
  function MovedNext(next: seq<nat>, prev: seq<nat>, b: nat): seq<nat>
    requires |next| == NBUF + 1 && |prev| == NBUF + 1 && b < NBUF
    requires next[b] <= NBUF && prev[b] <= NBUF
  {
    var n := next[prev[b] := next[b]];
    n[b := n[HEAD]][HEAD := b]
  }

  function MovedPrev(next: seq<nat>, prev: seq<nat>, b: nat): seq<nat>
    requires |next| == NBUF + 1 && |prev| == NBUF + 1 && b < NBUF
    requires next[b] <= NBUF && prev[b] <= NBUF && next[prev[b] := next[b]][HEAD] <= NBUF
  {
    prev[next[b] := prev[b]][b := HEAD][next[prev[b] := next[b]][HEAD] := b]
  }

  lemma MoveKeepsLinked(next: seq<nat>, prev: seq<nat>, ring: seq<nat>, i: nat)
    requires Linked(next, prev, ring) && i < |ring|
    ensures var b := ring[i];
            && next[b] <= NBUF && prev[b] <= NBUF && next[b] != b && prev[b] != b
            && next[prev[b] := next[b]][HEAD] <= NBUF && next[prev[b] := next[b]][HEAD] != b
            && Linked(MovedNext(next, prev, b), MovedPrev(next, prev, b), [b] + Without(ring, i))
  {
    var b := ring[i];
    UnlinkKeepsLinked(next, prev, ring, i);
    assert b == Node(ring, i + 1);
    assert next[b] == Node(ring, i + 2) && prev[b] == Node(ring, i);
    var r := Without(ring, i);
    var n, p := next[prev[b] := next[b]], prev[next[b] := prev[b]];
    assert b !in r;
    assert n[Node(r, 0)] == Node(r, 1);
    PushFrontKeepsLinked(n, p, r, b);
  }

  // ---------- most recently released order ----------

  /** When buffer b was last released, as an index into the history of releases; -1 if never. */
  ghost function LastRelease(h: seq<nat>, b: nat): (t: int)
    ensures -1 <= t < |h|
    ensures t >= 0 ==> h[t] == b
    ensures forall i :: t < i < |h| ==> h[i] != b
  {
    if h == [] then -1 else if h[|h| - 1] == b then |h| - 1 else LastRelease(h[..|h| - 1], b)
  }

  /** The ring lists the buffers from the most to the least recently released one. */
  ghost predicate MostRecentFirst(h: seq<nat>, ring: seq<nat>) {
    forall i, j :: 0 <= i < j < |ring| ==> LastRelease(h, ring[i]) > LastRelease(h, ring[j])
  }

  lemma AllAfterMove(ring: seq<nat>, i: nat)
    requires i < |ring| && forall b :: 0 <= b < NBUF ==> b in ring
    ensures forall b :: 0 <= b < NBUF ==> b in [ring[i]] + Without(ring, i)
  {
    var r := [ring[i]] + Without(ring, i);
    forall b | 0 <= b < NBUF ensures b in r {
      assert b in ring;
      var k :| 0 <= k < |ring| && ring[k] == b;
      assert r[if k < i then k + 1 else if k == i then 0 else k] == b;
    }
  }

  lemma ReleaseKeepsOrder(h: seq<nat>, ring: seq<nat>, i: nat)
    requires MostRecentFirst(h, ring) && Distinct(ring) && i < |ring|
    ensures MostRecentFirst(h + [ring[i]], [ring[i]] + Without(ring, i))
  {
    var b := ring[i];
    var h' := h + [b];
    assert h'[..|h'| - 1] == h;
    var r := [b] + Without(ring, i);
    forall k, l | 0 <= k < l < |r| ensures LastRelease(h', r[k]) > LastRelease(h', r[l]) {
      var at := (n: nat) => if n == 0 then i else if n - 1 < i then n - 1 else n;
      assert r[l] == ring[at(l)] && r[k] == ring[at(k)];
    }
  }

  lemma PushKeepsOrder(h: seq<nat>, ring: seq<nat>, b: nat)
    requires MostRecentFirst(h, ring) && b !in ring
    ensures MostRecentFirst(h + [b], [b] + ring)
  {
    var h' := h + [b];
    assert h'[..|h'| - 1] == h;
    var r := [b] + ring;
    forall k, l | 0 <= k < l < |r| ensures LastRelease(h', r[k]) > LastRelease(h', r[l]) {
      assert r[l] == ring[l - 1];
    }
  }

  /** At most one buffer carries a given device and sector. */
  ghost predicate Unique(buf: seq<Buf>) {
    forall a, b :: 0 <= a < b < |buf| && buf[a].dev != -1 ==>
      !(buf[a].dev == buf[b].dev && buf[a].sector == buf[b].sector)
  }

  predicate IsFor(b: Buf, sector: nat) {
    b.dev == ROOTDEV && b.sector == sector
  }

  /** What bread does to the buffers: the cached one, filled if it was not valid yet, or else an
      idle clean one recycled and filled; all others stay as they were. */
  ghost predicate BufferGot(before: seq<Buf>, after: seq<Buf>, b: nat, sector: nat, disk: Disk)
    requires |before| == NBUF && b < NBUF && sector < |disk|
  {
    if IsFor(before[b], sector) then
      var data := if before[b].valid then before[b].data else disk[sector];
      after == before[b := before[b].(busy := true, valid := true, data := data)]
    else
      && (forall c :: 0 <= c < NBUF ==> !IsFor(before[c], sector))
      && !before[b].busy && !before[b].dirty
      && after == before[b := Buf(true, true, false, ROOTDEV, sector, disk[sector])]
  }

  class Bcache {
    var disk: Disk
    var buf: seq<Buf>
    var next: seq<nat>
    var prev: seq<nat>
    /** The buffers in ring order, from the head. */
    ghost var ring: seq<nat>
    /** All releases so far; binit's insertions count as the first NBUF. */
    ghost var released: seq<nat>
    /** The disk at boot and all sector writes since. */
    ghost const boot: Disk
    ghost var writes: seq<Write>

    /** Every buffer is on the list exactly once, the most recently released first. */
    ghost predicate RingOk()
      reads this`next, this`prev, this`ring, this`released
    {
      && Linked(next, prev, ring)
      && (forall b :: 0 <= b < NBUF ==> b in ring)
      && MostRecentFirst(released, ring)
    }

    ghost predicate Valid()
      reads this
    {
      && |buf| == NBUF
      && RingOk()
      && Unique(buf)
      && (forall b :: 0 <= b < NBUF && buf[b].dirty ==> buf[b].valid)
      && |disk| == |boot| && InRange(boot, writes) && disk == ApplyAll(boot, writes)
    }

    /** binit: insert every buffer at the head. */
    constructor (d: Disk)
      ensures Valid()
      ensures disk == d && boot == d && writes == []
      ensures forall b :: 0 <= b < NBUF ==> !buf[b].busy && !buf[b].dirty && !buf[b].valid && buf[b].dev == -1
    {
      disk, boot, writes := d, d, [];
      buf := seq(NBUF, _ => Buf(false, false, false, -1, 0, ZeroBlock()));
      next := seq(NBUF + 1, _ => HEAD);
      prev := seq(NBUF + 1, _ => HEAD);
      ring, released := [], [];
      new;
      var b := 0;
      while b < NBUF
        invariant 0 <= b <= NBUF
        invariant Linked(next, prev, ring)
        invariant forall c :: 0 <= c < NBUF ==> (c in ring <==> c < b)
        invariant MostRecentFirst(released, ring)
        invariant disk == d && boot == d && writes == []
        invariant buf == seq(NBUF, _ => Buf(false, false, false, -1, 0, ZeroBlock()))
      {
        PushFrontKeepsLinked(next, prev, ring, b);
        PushKeepsOrder(released, ring, b);
        next := next[b := next[HEAD]];
        prev := prev[b := HEAD];
        prev := prev[next[HEAD] := b];
        next := next[HEAD := b];
        ring, released := [b] + ring, released + [b];
        b := b + 1;
      }
    }

    lemma RingPosition(c: nat) returns (k: nat)
      requires Valid() && c < NBUF
      ensures 1 <= k <= |ring| && Node(ring, k) == c
    {
      assert c in ring;
      var i :| 0 <= i < |ring| && ring[i] == c;
      k := i + 1;
    }

    /** bget's first loop: the buffer of the sector, or the head when it is not cached. */
    method FindCached(dev: int, sector: nat) returns (b: nat)
      requires Valid()
      ensures b <= HEAD
      ensures b < NBUF ==> buf[b].dev == dev && buf[b].sector == sector
      ensures b == HEAD ==> forall c :: 0 <= c < NBUF ==> !(buf[c].dev == dev && buf[c].sector == sector)
    {
      assert next[Node(ring, 0)] == Node(ring, 1);
      b := next[HEAD];
      ghost var i := 1;
      while b != HEAD && !(buf[b].dev == dev && buf[b].sector == sector)
        invariant 1 <= i <= |ring| + 1 && b == Node(ring, i)
        invariant forall k :: 1 <= k < i ==> !(buf[Node(ring, k)].dev == dev && buf[Node(ring, k)].sector == sector)
        decreases |ring| + 1 - i
      {
        b := next[b];
        i := i + 1;
      }
      if b == HEAD {
        forall c | 0 <= c < NBUF ensures !(buf[c].dev == dev && buf[c].sector == sector) {
          var k := RingPosition(c);
        }
      }
    }

    /** bget's second loop: the least recently released idle clean buffer, or the head when all
        buffers are busy or dirty. */
    method FindVictim() returns (b: nat)
      requires Valid()
      ensures b <= HEAD
      ensures b < NBUF ==>
                && !buf[b].busy && !buf[b].dirty
                && forall c :: 0 <= c < NBUF && !buf[c].busy && !buf[c].dirty ==>
                     LastRelease(released, b) <= LastRelease(released, c)
      ensures b == HEAD ==> forall c :: 0 <= c < NBUF ==> buf[c].busy || buf[c].dirty
    {
      assert prev[Node(ring, |ring| + 1)] == Node(ring, |ring|);
      b := prev[HEAD];
      ghost var i := |ring|;
      while b != HEAD && (buf[b].busy || buf[b].dirty)
        invariant 0 <= i <= |ring| && b == Node(ring, i)
        invariant forall k :: i < k <= |ring| ==> buf[Node(ring, k)].busy || buf[Node(ring, k)].dirty
        decreases i
      {
        b := prev[b];
        i := i - 1;
      }
      forall c | 0 <= c < NBUF && !buf[c].busy && !buf[c].dirty
        ensures b != HEAD && LastRelease(released, b) <= LastRelease(released, c)
      {
        var k := RingPosition(c);
      }
    }

    /** One pass of bget under bcache.lock. */
    method BgetAttempt(dev: int, sector: nat) returns (r: GetResult)
      requires Valid() && dev != -1
      modifies this`buf
      ensures Valid()
      ensures !r.NoBuffers? ==> r.b < NBUF
      ensures r.Hit? ==>
                && old(buf[r.b]).dev == dev && old(buf[r.b]).sector == sector && !old(buf[r.b]).busy
                && buf == old(buf)[r.b := old(buf[r.b]).(busy := true)]
      ensures r.Wait? ==>
                && old(buf[r.b]).dev == dev && old(buf[r.b]).sector == sector && old(buf[r.b]).busy
                && buf == old(buf)
      ensures r.Recycled? || r.NoBuffers? ==>
                forall c :: 0 <= c < NBUF ==> !(old(buf)[c].dev == dev && old(buf)[c].sector == sector)
      // the victim is idle and clean, and no idle clean buffer was released longer ago
      ensures r.Recycled? ==>
                && !old(buf[r.b]).busy && !old(buf[r.b]).dirty
                && buf == old(buf)[r.b := Buf(true, false, false, dev, sector, old(buf[r.b]).data)]
                && (forall c :: 0 <= c < NBUF && !old(buf)[c].busy && !old(buf)[c].dirty ==>
                      LastRelease(released, r.b) <= LastRelease(released, c))
      ensures r.NoBuffers? ==>
                && buf == old(buf)
                && forall c :: 0 <= c < NBUF ==> old(buf)[c].busy || old(buf)[c].dirty
    {
      var c := FindCached(dev, sector);
      if c < NBUF {
        if buf[c].busy {
          return Wait(c);
        }
        buf := buf[c := buf[c].(busy := true)];
        return Hit(c);
      }
      var b := FindVictim();
      if b == HEAD {
        return NoBuffers;
      }
      buf := buf[b := buf[b].(dev := dev, sector := sector, busy := true, valid := false, dirty := false)];
      return Recycled(b);
    }

    /** iderw of xv6/memide.c: write the sector if dirty, else read it. */
    method Iderw(b: nat)
      requires Valid() && b < NBUF
      requires buf[b].busy && !(buf[b].valid && !buf[b].dirty)
      requires buf[b].dev == ROOTDEV && buf[b].sector < |disk|
      modifies this`buf, this`disk, this`writes
      ensures Valid()
      ensures old(buf[b]).dirty ==>
                && disk == old(disk)[old(buf[b]).sector := old(buf[b]).data]
                && writes == old(writes) + [Write(old(buf[b]).sector, old(buf[b]).data)]
                && buf == old(buf)[b := old(buf[b]).(dirty := false, valid := true)]
      ensures !old(buf[b]).dirty ==>
                && disk == old(disk) && writes == old(writes)
                && buf == old(buf)[b := old(buf[b]).(data := disk[old(buf[b]).sector], valid := true)]
    {
      if buf[b].dirty {
        disk := disk[buf[b].sector := buf[b].data];
        writes := writes + [Write(buf[b].sector, buf[b].data)];
        ApplyOneMore(boot, old(writes), Write(buf[b].sector, buf[b].data));
        buf := buf[b := buf[b].(dirty := false, valid := true)];
      } else {
        buf := buf[b := buf[b].(data := disk[buf[b].sector], valid := true)];
      }
    }

    /** bread: a busy buffer holding the sector. When another process holds it, that process runs
        up to its brelse before the rescan; `mine` are the buffers the caller holds itself. */
    method Bread(sector: nat, ghost mine: set<nat>) returns (b: nat, ok: bool)
      requires Valid() && sector < |disk|
      requires forall c :: 0 <= c < NBUF && IsFor(buf[c], sector) ==> c !in mine
      modifies this`buf, this`disk, this`writes, this`next, this`prev, this`ring, this`released
      ensures Valid() && disk == old(disk) && writes == old(writes)
      ensures ok ==> b < NBUF && BufferGot(old(buf), buf, b, sector, disk)
      ensures !ok ==>
                && buf == old(buf)
                && forall c :: 0 <= c < NBUF ==> !IsFor(buf[c], sector) && (buf[c].busy || buf[c].dirty)
    {
      var r := BgetAttempt(ROOTDEV, sector);
      if r.Wait? {
        var c := r.b;
        Brelse(c);
        assert IsFor(buf[c], sector) && !buf[c].busy;
        r := BgetAttempt(ROOTDEV, sector);
        assert r.Hit? && r.b == c;
      }
      if r.NoBuffers? {
        return HEAD, false;
      }
      b, ok := r.b, true;
      if !buf[b].valid {
        Iderw(b);
      }
    }

    /** bwrite: force the buffer to disk. */
    method Bwrite(b: nat)
      requires Valid() && b < NBUF
      requires buf[b].busy && buf[b].valid && buf[b].dev == ROOTDEV && buf[b].sector < |disk|
      modifies this`buf, this`disk, this`writes
      ensures Valid()
      ensures disk == old(disk)[old(buf[b]).sector := old(buf[b]).data]
      ensures writes == old(writes) + [Write(old(buf[b]).sector, old(buf[b]).data)]
      ensures buf == old(buf)[b := old(buf[b]).(dirty := false)]
    {
      buf := buf[b := buf[b].(dirty := true)];
      Iderw(b);
    }

    /** memmove into the buffer, then bwrite. */
    method Store(b: nat, data: Block)
      requires Valid() && b < NBUF
      requires buf[b].busy && buf[b].valid && buf[b].dev == ROOTDEV && buf[b].sector < |disk|
      modifies this`buf, this`disk, this`writes
      ensures Valid()
      ensures disk == old(disk)[old(buf[b]).sector := data]
      ensures writes == old(writes) + [Write(old(buf[b]).sector, data)]
      ensures buf == old(buf)[b := old(buf[b]).(data := data, dirty := false)]
    {
      Set(b, data, buf[b].dirty);
      Bwrite(b);
    }

    /** The holder of a busy buffer changes its data, or marks it dirty to keep it cached. */
    method Set(b: nat, data: Block, dirty: bool)
      requires Valid() && b < NBUF && buf[b].busy && buf[b].valid
      modifies this`buf
      ensures Valid()
      ensures buf == old(buf)[b := old(buf[b]).(data := data, dirty := dirty)]
    {
      buf := buf[b := buf[b].(data := data, dirty := dirty)];
    }

    /** The list surgery of brelse: unlink the buffer and put it at the head. */
    method MoveToHead(b: nat)
      requires RingOk() && b < NBUF
      modifies this`next, this`prev, this`ring, this`released
      ensures RingOk()
      ensures released == old(released) + [b]
    {
      assert b in ring;
      ghost var i :| 0 <= i < |ring| && ring[i] == b;
      MoveKeepsLinked(next, prev, ring, i);
      ReleaseKeepsOrder(released, ring, i);
      AllAfterMove(ring, i);
      prev := prev[next[b] := prev[b]];
      next := next[prev[b] := next[b]];
      next := next[b := next[HEAD]];
      prev := prev[b := HEAD];
      prev := prev[next[HEAD] := b];
      next := next[HEAD := b];
      assert next == MovedNext(old(next), old(prev), b) && prev == MovedPrev(old(next), old(prev), b);
      ring, released := [b] + Without(ring, i), released + [b];
    }

    /** brelse: the buffer becomes the most recently released one and is no longer busy. */
    method Brelse(b: nat)
      requires Valid() && b < NBUF && buf[b].busy
      modifies this`buf, this`next, this`prev, this`ring, this`released
      ensures Valid()
      ensures buf == old(buf)[b := old(buf[b]).(busy := false)]
      ensures released == old(released) + [b]
    {
      MoveToHead(b);
      buf := buf[b := buf[b].(busy := false)];
    }
  }
}
