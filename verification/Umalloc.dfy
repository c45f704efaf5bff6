/** The user heap allocator of xv6/umalloc.c (section 8.7 of Kernighan & Ritchie, The C Programming
    Language, 2nd ed.): a circular, address-ordered, coalescing free list, in units of one Header. */
module Umalloc {
  import opened Prelude

  /** The null pointer and the address of the static header `base`; heap memory lies above it. */
  const NULL := 0
  const BASE := 1

  /** A free block: its address and its size in units. */
  datatype Blk = Blk(addr: nat, size: nat) {
    function End(): nat { addr + size }
  }

  // ---------- the free list as a sequence ----------

  /** Ordered by address, starting with the empty base block, and fully coalesced: between any two
      neighbours there is a gap. */
  ghost predicate Ordered(fl: seq<Blk>) {
    && |fl| >= 1 && fl[0] == Blk(BASE, 0)
    && (forall i :: 1 <= i < |fl| ==> fl[i].size >= 1)
    && Spaced(fl)
  }

  ghost predicate Spaced(s: seq<Blk>) {
    forall i, j :: 0 <= i < j < |s| ==> s[i].End() < s[j].addr
  }

  ghost predicate InFree(fl: seq<Blk>, u: nat) {
    exists i :: 0 <= i < |fl| && fl[i].addr <= u < fl[i].End()
  }

  ghost predicate InLive(live: map<nat, nat>, u: nat) {
    exists a :: a in live && a <= u < a + live[a]
  }

  /** Live blocks are apart from each other and from the free blocks. */
  ghost predicate Apart(fl: seq<Blk>, live: map<nat, nat>) {
    && (forall a :: a in live ==> BASE < a && live[a] >= 1)
    && (forall a, u: nat :: a in live && a <= u < a + live[a] ==> !InFree(fl, u))
    && (forall a, b :: a in live && b in live && a < b ==> a + live[a] <= b)
  }

  /** Every unit got from sbrk is in a free or a live block, and nothing else is. */
  ghost predicate Conserved(fl: seq<Blk>, live: map<nat, nat>, core: iset<nat>) {
    forall u: nat :: u in core <==> InFree(fl, u) || InLive(live, u)
  }

  ghost predicate TouchesUp(fl: seq<Blk>, k: nat, b: Blk) {
    k + 1 < |fl| && b.End() == fl[k + 1].addr
  }

  ghost predicate TouchesDown(fl: seq<Blk>, k: nat, b: Blk)
    requires k < |fl|
  {
    fl[k].End() == b.addr
  }

  /** The block that b becomes when it is joined with the neighbours it touches. */
  ghost function Joined(fl: seq<Blk>, k: nat, b: Blk): Blk
    requires k < |fl|
  {
    var up := if TouchesUp(fl, k, b) then b.size + fl[k + 1].size else b.size;
    if TouchesDown(fl, k, b) then Blk(fl[k].addr, fl[k].size + up) else Blk(b.addr, up)
  }

  /** How many blocks stay in front of the joined block, and where the list resumes after it. */
  ghost function Before(fl: seq<Blk>, k: nat, b: Blk): (m: nat)
    requires k < |fl|
    ensures m <= |fl|
  {
    if TouchesDown(fl, k, b) then k else k + 1
  }

  ghost function After(fl: seq<Blk>, k: nat, b: Blk): (n: nat)
    requires k < |fl|
    ensures Before(fl, k, b) <= n <= |fl|
  {
    if TouchesUp(fl, k, b) then k + 2 else k + 1
  }

  /** The free list after freeing b, whose place is behind position k. */
  ghost function Inserted(fl: seq<Blk>, k: nat, b: Blk): seq<Blk>
    requires k < |fl|
  {
    fl[..Before(fl, k, b)] + [Joined(fl, k, b)] + fl[After(fl, k, b)..]
  }

  /** b lies in the gap behind position k. */
  ghost predicate Gap(fl: seq<Blk>, k: nat, b: Blk) {
    && k < |fl| && fl[k].addr < b.addr && fl[k].End() <= b.addr && b.size >= 1
    && (k + 1 < |fl| ==> b.End() <= fl[k + 1].addr)
  }

  lemma SpacedConcat(lo: seq<Blk>, x: Blk, hi: seq<Blk>)
    requires Spaced(lo) && Spaced(hi)
    requires forall i :: 0 <= i < |lo| ==> lo[i].End() < x.addr
    requires forall i :: 0 <= i < |hi| ==> x.End() < hi[i].addr
    ensures Spaced(lo + [x] + hi)
  {
  }

  lemma UnitsConcat(lo: seq<Blk>, x: Blk, hi: seq<Blk>, u: nat)
    ensures InFree(lo + [x] + hi, u) <==> InFree(lo, u) || x.addr <= u < x.End() || InFree(hi, u)
  {
    UnitsOfSum(lo + [x], hi, u);
    UnitsOfSum(lo, [x], u);
    assert [x][0] == x;
  }

  lemma UnitsOfSum(a: seq<Blk>, b: seq<Blk>, u: nat)
    ensures InFree(a + b, u) <==> InFree(a, u) || InFree(b, u)
  {
    if InFree(a, u) {
      var i :| 0 <= i < |a| && a[i].addr <= u < a[i].End();
      assert (a + b)[i] == a[i];
    }
    if InFree(b, u) {
      var i :| 0 <= i < |b| && b[i].addr <= u < b[i].End();
      assert (a + b)[|a| + i] == b[i];
    }
  }

  lemma AboveLower(fl: seq<Blk>, k: nat, b: Blk, i: nat)
    requires Ordered(fl) && Gap(fl, k, b) && i < Before(fl, k, b)
    ensures fl[i].End() < Joined(fl, k, b).addr
  {
    if i < k {
      assert fl[i].End() < fl[k].addr;
    }
  }

  lemma BelowUpper(fl: seq<Blk>, k: nat, b: Blk, j: nat)
    requires Ordered(fl) && Gap(fl, k, b) && After(fl, k, b) <= j < |fl|
    ensures Joined(fl, k, b).End() < fl[j].addr
  {
    if j > k + 1 {
      assert fl[k + 1].End() < fl[j].addr;
    }
  }

  lemma InsertedSpaced(fl: seq<Blk>, k: nat, b: Blk)
    requires Ordered(fl) && Gap(fl, k, b)
    ensures Spaced(Inserted(fl, k, b))
  {
    hide Joined, Before, After;
    var lo, x, hi := fl[..Before(fl, k, b)], Joined(fl, k, b), fl[After(fl, k, b)..];
    forall i | 0 <= i < |lo| ensures lo[i].End() < x.addr {
      AboveLower(fl, k, b, i);
    }
    forall i | 0 <= i < |hi| ensures x.End() < hi[i].addr {
      var j := After(fl, k, b) + i;
      BelowUpper(fl, k, b, j);
    }
    SpacedConcat(lo, x, hi);
  }

  lemma InsertedOrdered(fl: seq<Blk>, k: nat, b: Blk)
    requires Ordered(fl) && Gap(fl, k, b)
    ensures Ordered(Inserted(fl, k, b))
  {
    InsertedSpaced(fl, k, b);
    assert Before(fl, k, b) > 0 && Joined(fl, k, b).size >= 1;
    hide Joined, Before, After, Spaced, TouchesDown;
    SizesConcat(fl[..Before(fl, k, b)], Joined(fl, k, b), fl[After(fl, k, b)..]);
  }

  lemma SizesConcat(lo: seq<Blk>, x: Blk, hi: seq<Blk>)
    requires |lo| >= 1 && x.size >= 1
    requires forall i :: 1 <= i < |lo| ==> lo[i].size >= 1
    requires forall i :: 0 <= i < |hi| ==> hi[i].size >= 1
    ensures forall i :: 1 <= i < |lo + [x] + hi| ==> (lo + [x] + hi)[i].size >= 1
  {
  }

  lemma UnitsOfThree(fl: seq<Blk>, m: nat, n: nat, u: nat)
    requires m <= n <= |fl|
    ensures InFree(fl, u) <==> InFree(fl[..m], u) || InFree(fl[m..n], u) || InFree(fl[n..], u)
  {
    assert fl == fl[..n] + fl[n..] && fl[..n] == fl[..m] + fl[m..n];
    UnitsOfSum(fl[..n], fl[n..], u);
    UnitsOfSum(fl[..m], fl[m..n], u);
  }

  /** Freeing adds exactly the units of the freed block to the free units. */
  lemma InsertedUnits(fl: seq<Blk>, k: nat, b: Blk, u: nat)
    requires Ordered(fl) && Gap(fl, k, b)
    ensures InFree(Inserted(fl, k, b), u) <==> InFree(fl, u) || b.addr <= u < b.End()
  {
    hide InFree, Joined, Before, After, Ordered;
    var m, n := Before(fl, k, b), After(fl, k, b);
    UnitsConcat(fl[..m], Joined(fl, k, b), fl[n..], u);
    UnitsOfThree(fl, m, n, u);
    UnitsOfMiddle(fl, k, b, fl[m..n], u);
  }

  lemma UnitsOfMiddle(fl: seq<Blk>, k: nat, b: Blk, mid: seq<Blk>, u: nat)
    requires Gap(fl, k, b) && mid == fl[Before(fl, k, b)..After(fl, k, b)]
    ensures var x := Joined(fl, k, b); x.addr <= u < x.End() <==> InFree(mid, u) || b.addr <= u < b.End()
  {
    if TouchesDown(fl, k, b) {
      assert mid[0] == fl[k];
      if TouchesUp(fl, k, b) {
        assert mid[1] == fl[k + 1];
      }
    } else if TouchesUp(fl, k, b) {
      assert mid[0] == fl[k + 1];
    }
  }

  // ---------- taking n units from block k ----------

  /** malloc's choice: all of block k, or its upper end. */
  ghost function TakenAt(fl: seq<Blk>, k: nat, n: nat): nat
    requires k < |fl| && n <= fl[k].size
  {
    fl[k].End() - n
  }

  ghost function Without(fl: seq<Blk>, k: nat, n: nat): seq<Blk>
    requires k < |fl| && n <= fl[k].size
  {
    if fl[k].size == n then fl[..k] + fl[k + 1..] else fl[..k] + [Blk(fl[k].addr, fl[k].size - n)] + fl[k + 1..]
  }

  lemma WithoutOrdered(fl: seq<Blk>, k: nat, n: nat)
    requires Ordered(fl) && 0 < k < |fl| && 1 <= n <= fl[k].size
    ensures Ordered(Without(fl, k, n))
  {
    var lo, hi := fl[..k], fl[k + 1..];
    if fl[k].size == n {
      assert Ordered(lo + hi);
    } else {
      var x := Blk(fl[k].addr, fl[k].size - n);
      assert fl[..k] + [x] + fl[k + 1..] == fl[k := x];
    }
  }

  /** Taking units splits the free units into the taken ones and those that stay free. */
  lemma WithoutUnits(fl: seq<Blk>, k: nat, n: nat, u: nat)
    requires Ordered(fl) && 0 < k < |fl| && 1 <= n <= fl[k].size
    ensures var a := TakenAt(fl, k, n);
            && (InFree(fl, u) <==> InFree(Without(fl, k, n), u) || a <= u < a + n)
            && !(InFree(Without(fl, k, n), u) && a <= u < a + n)
  {
    var lo, hi := fl[..k], fl[k + 1..];
    assert fl == lo + [fl[k]] + hi;
    UnitsConcat(lo, fl[k], hi, u);
    Outside(fl, k, u);
    hide InFree;
    if fl[k].size == n {
      UnitsOfSum(lo, hi, u);
    } else {
      UnitsConcat(lo, Blk(fl[k].addr, fl[k].size - n), hi, u);
    }
  }

  lemma Outside(fl: seq<Blk>, k: nat, u: nat)
    requires Ordered(fl) && k < |fl|
    ensures fl[k].addr <= u < fl[k].End() ==> !InFree(fl[..k], u) && !InFree(fl[k + 1..], u)
  {
  }

  // ---------- the links ----------

  ghost function Next(fl: seq<Blk>, i: nat): nat
    requires i < |fl|
  {
    if i + 1 < |fl| then fl[i + 1].addr else fl[0].addr
  }

  /** The header of the i-th free block. */
  ghost predicate LinkAt(ptr: map<nat, nat>, size: map<nat, nat>, fl: seq<Blk>, i: nat)
    requires i < |fl|
  {
    && fl[i].addr in ptr && fl[i].addr in size
    && size[fl[i].addr] == fl[i].size && ptr[fl[i].addr] == Next(fl, i)
  }

  /** The headers in memory are the free list: sizes, and pointers around the circle. */
  ghost predicate Linked(ptr: map<nat, nat>, size: map<nat, nat>, fl: seq<Blk>) {
    forall i :: 0 <= i < |fl| ==> LinkAt(ptr, size, fl, i)
  }

  /** The header writes of free, once p is found: join up, then join down. */
  ghost function PtrUp(ptr: map<nat, nat>, size: map<nat, nat>, p: nat, bp: nat): map<nat, nat>
    requires p in ptr && bp in size && (bp + size[bp] == ptr[p] ==> ptr[p] in ptr)
  {
    if bp + size[bp] == ptr[p] then ptr[bp := ptr[ptr[p]]] else ptr[bp := ptr[p]]
  }

  ghost function SizeUp(ptr: map<nat, nat>, size: map<nat, nat>, p: nat, bp: nat): map<nat, nat>
    requires p in ptr && bp in size && (bp + size[bp] == ptr[p] ==> ptr[p] in size)
  {
    if bp + size[bp] == ptr[p] then size[bp := size[bp] + size[ptr[p]]] else size
  }

  ghost function PtrDown(ptr: map<nat, nat>, size: map<nat, nat>, p: nat, bp: nat): map<nat, nat>
    requires p in size && bp in ptr
  {
    if p + size[p] == bp then ptr[p := ptr[bp]] else ptr[p := bp]
  }

  ghost function SizeDown(size: map<nat, nat>, p: nat, bp: nat): map<nat, nat>
    requires p in size && bp in size
  {
    if p + size[p] == bp then size[p := size[p] + size[bp]] else size
  }

  /** After joining up, the header of bp describes its block and points where the list goes on. */
  lemma UpIsRight(ptr: map<nat, nat>, size: map<nat, nat>, fl: seq<Blk>, k: nat, b: Blk)
    requires Ordered(fl) && Linked(ptr, size, fl) && Gap(fl, k, b) && b.addr in size && size[b.addr] == b.size
    ensures LinkAt(ptr, size, fl, k)
    ensures var p := fl[k].addr;
            && (b.addr + size[b.addr] == ptr[p] <==> TouchesUp(fl, k, b))
            && (TouchesUp(fl, k, b) ==> ptr[p] in ptr && ptr[p] in size)
            && var ptr', size' := PtrUp(ptr, size, p, b.addr), SizeUp(ptr, size, p, b.addr);
               && b.addr in ptr' && b.addr in size'
               && size'[b.addr] == (if TouchesUp(fl, k, b) then b.size + fl[k + 1].size else b.size)
               && ptr'[b.addr] == (if After(fl, k, b) < |fl| then fl[After(fl, k, b)].addr else fl[0].addr)
  {
    assert LinkAt(ptr, size, fl, k);
    if k + 1 < |fl| {
      assert LinkAt(ptr, size, fl, k + 1);
    } else {
      assert fl[0].addr <= fl[k].addr;
    }
  }

  /** THE HEADER WRITES OF free BUILD THE NEW LIST: joined both ways, still one circle. */
  lemma InsertedLinked(ptr: map<nat, nat>, size: map<nat, nat>, fl: seq<Blk>, k: nat, b: Blk,
                       ptr1: map<nat, nat>, size1: map<nat, nat>, ptr2: map<nat, nat>, size2: map<nat, nat>)
    requires Ordered(fl) && Linked(ptr, size, fl) && Gap(fl, k, b) && b.addr in size && size[b.addr] == b.size
    requires LinkAt(ptr, size, fl, k)
    requires TouchesUp(fl, k, b) ==> ptr[fl[k].addr] in ptr && ptr[fl[k].addr] in size
    requires b.addr + size[b.addr] == ptr[fl[k].addr] <==> TouchesUp(fl, k, b)
    requires ptr1 == PtrUp(ptr, size, fl[k].addr, b.addr) && size1 == SizeUp(ptr, size, fl[k].addr, b.addr)
    requires fl[k].addr in size1 && b.addr in ptr1
    requires ptr2 == PtrDown(ptr1, size1, fl[k].addr, b.addr) && size2 == SizeDown(size1, fl[k].addr, b.addr)
    ensures Linked(ptr2, size2, Inserted(fl, k, b))
  {
    UpIsRight(ptr, size, fl, k, b);
    assert Moved(ptr, size, fl, k, b, ptr2, size2);
    var r := Inserted(fl, k, b);
    var m := Before(fl, k, b);
    hide PtrUp, SizeUp, PtrDown, SizeDown, Moved, Inserted, Ordered, Gap;
    forall i | 0 <= i < |r| ensures LinkAt(ptr2, size2, r, i) {
      if i < m {
        LowerLink(ptr, size, fl, k, b, i, ptr2, size2);
      } else if i > m {
        UpperLink(ptr, size, fl, k, b, i, ptr2, size2);
      } else {
        MiddleLink(ptr, size, fl, k, b, ptr2, size2);
      }
    }
  }

  /** What the header writes of free come to. */
  ghost predicate Moved(ptr: map<nat, nat>, size: map<nat, nat>, fl: seq<Blk>, k: nat, b: Blk,
                        ptr2: map<nat, nat>, size2: map<nat, nat>)
    requires k < |fl|
  {
    var next := if After(fl, k, b) < |fl| then fl[After(fl, k, b)].addr else fl[0].addr;
    var x := Joined(fl, k, b);
    && (forall a :: a in ptr && a != b.addr && a != fl[k].addr ==> a in ptr2 && ptr2[a] == ptr[a])
    && (forall a :: a in size && a != b.addr && a != fl[k].addr ==> a in size2 && size2[a] == size[a])
    && x.addr in ptr2 && x.addr in size2 && size2[x.addr] == x.size && ptr2[x.addr] == next
    && (!TouchesDown(fl, k, b) ==>
          fl[k].addr in ptr2 && fl[k].addr in size2 && ptr2[fl[k].addr] == b.addr && size2[fl[k].addr] == fl[k].size)
  }

  lemma LowerLink(ptr: map<nat, nat>, size: map<nat, nat>, fl: seq<Blk>, k: nat, b: Blk, i: nat,
                  ptr2: map<nat, nat>, size2: map<nat, nat>)
    requires Ordered(fl) && Linked(ptr, size, fl) && Gap(fl, k, b) && i < Before(fl, k, b)
    requires Moved(ptr, size, fl, k, b, ptr2, size2)
    ensures LinkAt(ptr2, size2, Inserted(fl, k, b), i)
  {
    var r := Inserted(fl, k, b);
    assert r[i] == fl[i];
    if i < k {
      assert LinkAt(ptr, size, fl, i);
      assert fl[i].addr < fl[k].addr;
      assert r[i + 1].addr == fl[i + 1].addr;
    } else {
      assert r[i + 1] == Joined(fl, k, b);
    }
  }

  lemma UpperLink(ptr: map<nat, nat>, size: map<nat, nat>, fl: seq<Blk>, k: nat, b: Blk, i: nat,
                  ptr2: map<nat, nat>, size2: map<nat, nat>)
    requires Ordered(fl) && Linked(ptr, size, fl) && Gap(fl, k, b) && Before(fl, k, b) < i < |Inserted(fl, k, b)|
    requires Moved(ptr, size, fl, k, b, ptr2, size2)
    ensures LinkAt(ptr2, size2, Inserted(fl, k, b), i)
  {
    var r := Inserted(fl, k, b);
    var j := i - Before(fl, k, b) - 1 + After(fl, k, b);
    assert r[i] == fl[j] && (i + 1 < |r| ==> r[i + 1] == fl[j + 1]);
    assert r[0].addr == fl[0].addr;
    assert LinkAt(ptr, size, fl, j);
    assert fl[k].addr < fl[j].addr;
  }

  lemma MiddleLink(ptr: map<nat, nat>, size: map<nat, nat>, fl: seq<Blk>, k: nat, b: Blk,
                   ptr2: map<nat, nat>, size2: map<nat, nat>)
    requires Ordered(fl) && Gap(fl, k, b) && Moved(ptr, size, fl, k, b, ptr2, size2)
    ensures LinkAt(ptr2, size2, Inserted(fl, k, b), Before(fl, k, b))
  {
    var r, m, n := Inserted(fl, k, b), Before(fl, k, b), After(fl, k, b);
    assert r[m] == Joined(fl, k, b);
    assert m + 1 < |r| ==> r[m + 1] == fl[n];
    assert r[0].addr == fl[0].addr;
  }

  lemma WholeLinked(ptr: map<nat, nat>, size: map<nat, nat>, fl: seq<Blk>, k: nat, n: nat, ptr': map<nat, nat>)
    requires Ordered(fl) && Linked(ptr, size, fl) && 0 < k < |fl| && n == fl[k].size
    requires fl[k].addr in ptr && ptr' == ptr[fl[k - 1].addr := ptr[fl[k].addr]]
    ensures Linked(ptr', size, Without(fl, k, n))
  {
    var r := Without(fl, k, n);
    forall i | 0 <= i < |r| ensures LinkAt(ptr', size, r, i) {
      var j := if i < k then i else i + 1;
      var l := if i + 1 < k then i + 1 else i + 2;
      assert r[i] == fl[j] && (i + 1 < |r| ==> r[i + 1] == fl[l]);
      assert r[0] == fl[0];
      assert LinkAt(ptr, size, fl, j) && LinkAt(ptr, size, fl, k);
      if j != k - 1 {
        assert fl[j].addr != fl[k - 1].addr;
      }
    }
  }

  lemma PartLinked(ptr: map<nat, nat>, size: map<nat, nat>, fl: seq<Blk>, k: nat, n: nat, size': map<nat, nat>)
    requires Ordered(fl) && Linked(ptr, size, fl) && 0 < k < |fl| && 1 <= n < fl[k].size
    requires size' == size[fl[k].addr := fl[k].size - n][TakenAt(fl, k, n) := n]
    ensures Linked(ptr, size', Without(fl, k, n))
  {
    var r := Without(fl, k, n);
    forall i | 0 <= i < |r| ensures LinkAt(ptr, size', r, i) {
      assert LinkAt(ptr, size, fl, i);
      assert r[i].addr == fl[i].addr && (i + 1 < |r| ==> r[i + 1].addr == fl[i + 1].addr);
      assert i < k ==> fl[i].addr < fl[k].addr;
      assert i > k ==> fl[k].End() < fl[i].addr;
    }
  }

  // ---------- live blocks ----------

  lemma LiveWithout(live: map<nat, nat>, a: nat, u: nat)
    requires a in live
    ensures InLive(live, u) <==> InLive(live - {a}, u) || a <= u < a + live[a]
  {
    if InLive(live, u) {
      var b :| b in live && b <= u < b + live[b];
      assert b != a ==> b in live - {a};
    }
    if InLive(live - {a}, u) {
      var b :| b in live - {a} && b <= u < b + (live - {a})[b];
      assert b in live;
    }
  }

  lemma LiveWith(live: map<nat, nat>, a: nat, n: nat, u: nat)
    requires a !in live
    ensures InLive(live[a := n], u) <==> InLive(live, u) || a <= u < a + n
  {
    LiveWithout(live[a := n], a, u);
    assert live[a := n] - {a} == live;
  }

  /** A live block lies in one gap of the free list. */
  lemma LiveInGap(fl: seq<Blk>, live: map<nat, nat>, bp: nat) returns (k: nat)
    requires Ordered(fl) && Apart(fl, live) && bp in live
    ensures Gap(fl, k, Blk(bp, live[bp]))
  {
    k := 0;
    while k + 1 < |fl| && fl[k + 1].addr < bp
      invariant k < |fl| && fl[k].addr < bp
    {
      k := k + 1;
    }
    NoOverlap(fl, live, bp, k);
    if k + 1 < |fl| {
      NoOverlap(fl, live, bp, k + 1);
    }
  }

  lemma NoOverlap(fl: seq<Blk>, live: map<nat, nat>, bp: nat, i: nat)
    requires Ordered(fl) && Apart(fl, live) && bp in live && i < |fl|
    ensures bp + live[bp] <= fl[i].addr || fl[i].End() <= bp
  {
    if i > 0 && fl[i].End() > bp && fl[i].addr < bp + live[bp] {
      var u := if bp < fl[i].addr then fl[i].addr else bp;
      assert InFree(fl, u);
    }
  }

  /** Freeing a live block: still apart, and every unit still accounted for. */
  lemma FreedApart(fl: seq<Blk>, live: map<nat, nat>, core: iset<nat>, k: nat, bp: nat)
    requires Ordered(fl) && Apart(fl, live) && Conserved(fl, live, core) && bp in live && Gap(fl, k, Blk(bp, live[bp]))
    ensures Apart(Inserted(fl, k, Blk(bp, live[bp])), live - {bp})
    ensures Conserved(Inserted(fl, k, Blk(bp, live[bp])), live - {bp}, core)
  {
    var b := Blk(bp, live[bp]);
    var r, live' := Inserted(fl, k, b), live - {bp};
    hide Inserted, InFree, InLive, Gap, Ordered;
    forall u: nat ensures InFree(r, u) <==> InFree(fl, u) || bp <= u < bp + live[bp] {
      InsertedUnits(fl, k, b, u);
    }
    forall u: nat ensures u in core <==> InFree(r, u) || InLive(live', u) {
      LiveWithout(live, bp, u);
    }
    forall a, u: nat | a in live' && a <= u < a + live'[a] ensures !InFree(r, u) {
      assert a < bp || bp < a;
    }
  }

  /** Taking units for a new live block. */
  lemma TakenApart(fl: seq<Blk>, live: map<nat, nat>, core: iset<nat>, k: nat, n: nat, a: nat)
    requires Ordered(fl) && Apart(fl, live) && Conserved(fl, live, core)
    requires 0 < k < |fl| && 1 <= n <= fl[k].size && a == TakenAt(fl, k, n)
    ensures a !in live && Apart(Without(fl, k, n), live[a := n]) && Conserved(Without(fl, k, n), live[a := n], core)
  {
    var r, live' := Without(fl, k, n), live[a := n];
    assert BASE < a by { assert fl[0].End() < fl[k].addr; }
    forall u: nat ensures (InFree(fl, u) <==> InFree(r, u) || a <= u < a + n) && !(InFree(r, u) && a <= u < a + n) {
      WithoutUnits(fl, k, n, u);
    }
    hide Without, InFree, InLive, Ordered, TakenAt;
    assert InFree(fl, a);
    assert a !in live;
    forall u: nat ensures u in core <==> InFree(r, u) || InLive(live', u) {
      LiveWith(live, a, n, u);
    }
    forall c, u: nat | c in live' && c <= u < c + live'[c] ensures !InFree(r, u) {
    }
    forall d | d in live ensures d + live[d] <= a || a + n <= d {
      var common := InFree(fl, if d < a then a else d);
    }
  }

  // ---------- the allocator ----------

  class Heap {
    /** The headers in memory: s.ptr and s.size, by unit address. */
    var ptr: map<nat, nat>
    var size: map<nat, nat>
    var freep: nat
    /** The first unit above all memory that sbrk has returned. */
    var brk: nat
    ghost var fl: seq<Blk>
    /** Blocks handed out and not freed yet, with their sizes. */
    ghost var live: map<nat, nat>
    /** All units got from sbrk. */
    ghost var core: iset<nat>
    /** How often sbrk has succeeded, and how often it has failed. */
    ghost var grants: nat
    ghost var refusals: nat

    ghost predicate Good()
      reads this
    {
      && Ordered(fl) && Linked(ptr, size, fl)
      && Apart(fl, live) && Conserved(fl, live, core)
      && (forall a :: a in live ==> a in size && size[a] == live[a])
      && (forall u :: u in core ==> BASE < u < brk)
    }

    /** Before the first malloc freep is null; from then on it points into the free list. */
    ghost predicate Valid()
      reads this
    {
      if freep == NULL then live == map[] && core == iset{} && BASE < brk
      else Good() && BASE < brk && exists k :: 0 <= k < |fl| && fl[k].addr == freep
    }

    constructor (brk: nat)
      requires BASE < brk
      ensures Valid() && freep == NULL && live == map[] && this.brk == brk
    {
      ptr, size, freep, this.brk := map[], map[], NULL, brk;
      fl, live, core, grants, refusals := [], map[], iset{}, 0, 0;
    }

    /** The search loop of free: it stops, at the one gap that bp lies in. */
    method FindPlace(bp: nat) returns (p: nat, ghost k: nat)
      requires Valid() && freep != NULL && bp in live
      ensures Gap(fl, k, Blk(bp, live[bp])) && p == fl[k].addr
    {
      ghost var t := LiveInGap(fl, live, bp);
      k :| 0 <= k < |fl| && fl[k].addr == freep;
      p := freep;
      assert LinkAt(ptr, size, fl, k);
      while !(bp > p && bp < ptr[p]) && !(p >= ptr[p] && (bp > p || bp < ptr[p]))
        invariant k < |fl| && p == fl[k].addr && LinkAt(ptr, size, fl, k)
        decreases if k <= t then t - k else |fl| - k + t
      {
        NotHere(fl, k, t, bp, live[bp]);
        p := ptr[p];
        k := if k + 1 < |fl| then k + 1 else 0;
        assert LinkAt(ptr, size, fl, k);
      }
      Here(fl, k, t, bp, live[bp]);
    }

    /** free: the block joins the free list, coalesced with the neighbours it touches. */
    method Free(ap: nat) returns (ghost k: nat)
      requires Valid() && freep != NULL && ap > 0 && ap - 1 in live
      modifies this`ptr, this`size, this`freep, this`fl, this`live
      ensures Valid() && freep != NULL && live == old(live) - {ap - 1}
      ensures Gap(old(fl), k, Blk(ap - 1, old(live)[ap - 1]))
              && fl == Inserted(old(fl), k, Blk(ap - 1, old(live)[ap - 1]))
    {
      var bp := ap - 1;
      var p;
      p, k := FindPlace(bp);
      ghost var b := Blk(bp, live[bp]);
      hide Inserted, Gap, Apart, Conserved, Linked, Ordered;
      LiveSizes(fl, live, k, bp);
      LinkIn(p, bp, k, b);
      InsertedOrdered(fl, k, b);
      FreedApart(fl, live, core, k, bp);
      PStays(fl, k, b);
      freep := p;
      fl, live := Inserted(fl, k, b), live - {bp};
    }

    /** The header writes of free. */
    method LinkIn(p: nat, bp: nat, ghost k: nat, ghost b: Blk)
      requires Ordered(fl) && Linked(ptr, size, fl) && Gap(fl, k, b) && p == fl[k].addr
      requires b.addr == bp && bp in size && size[bp] == b.size
      modifies this`ptr, this`size
      ensures Linked(ptr, size, Inserted(fl, k, b))
      ensures forall a :: a in old(size) && a != bp && a != p ==> a in size && size[a] == old(size)[a]
    {
      hide Inserted, Gap, Before, After, Joined, Ordered;
      UpIsRight(ptr, size, fl, k, b);
      ghost var ptr0, size0 := ptr, size;
      var next := ptr[p];
      if bp + size[bp] == next {
        size := size[bp := size[bp] + size[next]];
        ptr := ptr[bp := ptr[next]];
      } else {
        ptr := ptr[bp := next];
      }
      ghost var ptr1, size1 := ptr, size;
      assert ptr1 == PtrUp(ptr0, size0, p, bp) && size1 == SizeUp(ptr0, size0, p, bp);
      if p + size[p] == bp {
        size := size[p := size[p] + size[bp]];
        ptr := ptr[p := ptr[bp]];
      } else {
        ptr := ptr[p := bp];
      }
      InsertedLinked(ptr0, size0, fl, k, b, ptr1, size1, ptr, size);
    }

    /** sbrk, as the kernel may answer it: nu fresh units above all earlier ones, or failure. */
    method Sbrk(nu: nat) returns (r: Option<nat>)
      modifies this`brk, this`refusals
      ensures r.None? ==> brk == old(brk) && refusals == old(refusals) + 1
      ensures r.Some? ==> old(brk) <= r.value && brk == r.value + nu && refusals == old(refusals)
    {
      if * {
        refusals := refusals + 1;
        return None;
      }
      var a: nat :| a >= brk;
      brk := a + nu;
      return Some(a);
    }

    /** Fresh memory gets a header and counts as a live block until it is freed. */
    method Adopt(hp: nat, n: nat, ghost brk0: nat)
      requires Good() && BASE < brk0 <= hp && n >= 1 && brk == hp + n
      requires forall u :: u in core ==> u < brk0
      modifies this`size, this`live, this`core, this`grants
      ensures Good() && hp !in old(live) && live == old(live)[hp := n] && core == old(core) + Range(hp, n)
      ensures grants == old(grants) + 1
    {
      hide Ordered, Linked, Apart, Conserved;
      NewCore(fl, live, core, brk0, hp, n);
      SizesStay(ptr, size, fl, hp, n, core, brk0, live);
      size := size[hp := n];
      live := live[hp := n];
      core := core + Range(hp, n);
      grants := grants + 1;
    }

    /** morecore: at least 4096 units from sbrk go to the free list; afterwards some free block is
        large enough. */
    method Morecore(nu: nat) returns (r: Option<nat>, ghost hp: nat, ghost n: nat)
      requires Valid() && freep != NULL && nu >= 1
      modifies this
      ensures Valid() && freep != NULL && live == old(live)
      ensures r.None? ==> freep == old(freep) && fl == old(fl) && core == old(core) && grants == old(grants)
      ensures r.None? ==> refusals == old(refusals) + 1
      ensures r.Some? ==> r.value == freep && grants == old(grants) + 1 && refusals == old(refusals)
      ensures r.Some? ==> hp >= old(brk) && n >= nu && core == old(core) + Range(hp, n)
      ensures r.Some? ==> exists i :: 0 <= i < |fl| && fl[i].size >= nu
    {
      hide Ordered, Linked, Apart, Conserved, Inserted, Gap, Good;
      var units := if nu < 4096 then 4096 else nu;
      hp, n := 0, units;
      ghost var k0 :| 0 <= k0 < |fl| && fl[k0].addr == freep;
      ghost var brk0 := brk;
      var p := Sbrk(units);
      StillGood(brk0);
      assert fl[k0].addr == freep;
      if p.None? {
        r := None;
        return;
      }
      hp := p.value;
      Adopt(p.value, units, brk0);
      assert fl[k0].addr == freep;
      ghost var fl0, b := fl, Blk(hp, units);
      ghost var k := Free(p.value + 1);
      assert old(live)[hp := units] - {hp} == old(live);
      JoinedLarge(fl0, k, b);
      r := Some(freep);
    }

    twostate lemma StillGood(brk0: nat)
      requires old(Good()) && brk0 == old(brk) <= brk
      requires unchanged(`ptr) && unchanged(`size) && unchanged(`fl) && unchanged(`live) && unchanged(`core)
      ensures Good() && forall u :: u in core ==> u < brk0
    {
    }

    /** The found block is taken off the list, or its upper end is split off. */
    method Carve(p: nat, prevp: nat, nunits: nat, ghost k: nat) returns (a: nat)
      requires Ordered(fl) && Linked(ptr, size, fl)
      requires 1 <= k < |fl| && fl[k].addr == p && fl[k - 1].addr == prevp && 1 <= nunits <= fl[k].size
      modifies this`ptr, this`size
      ensures a == TakenAt(fl, k, nunits) && a in size && size[a] == nunits && Linked(ptr, size, Without(fl, k, nunits))
      ensures forall c :: c in old(size) && c != p && c != a ==> c in size && size[c] == old(size)[c]
    {
      assert LinkAt(ptr, size, fl, k) && LinkAt(ptr, size, fl, k - 1);
      hide Linked, Without, Ordered;
      a := p;
      if size[p] == nunits {
        WholeLinked(ptr, size, fl, k, nunits, ptr[prevp := ptr[p]]);
        ptr := ptr[prevp := ptr[p]];
      } else {
        ghost var size0 := size;
        size := size[p := size[p] - nunits];
        a := p + size[p];
        size := size[a := nunits];
        PartLinked(ptr, size0, fl, k, nunits, size);
      }
    }

    method Take(p: nat, prevp: nat, nunits: nat, ghost k: nat) returns (a: nat)
      requires Good() && prevp != NULL && 1 <= k < |fl| && fl[k].addr == p && fl[k - 1].addr == prevp
               && 1 <= nunits <= fl[k].size
      modifies this`ptr, this`size, this`freep, this`fl, this`live
      ensures Good() && freep == prevp != NULL && exists i :: 0 <= i < |fl| && fl[i].addr == freep
      ensures a !in old(live) && live == old(live)[a := nunits] && a > NULL
    {
      hide Conserved, Apart, Linked, Without, Ordered, TakenAt;
      TakenApart(fl, live, core, k, nunits, TakenAt(fl, k, nunits));
      WithoutOrdered(fl, k, nunits);
      WithoutKeeps(fl, k, nunits);
      NoLiveAt(fl, live, k);
      a := Carve(p, prevp, nunits, k);
      freep := prevp;
      fl, live := Without(fl, k, nunits), live[a := nunits];
      assert fl[k - 1].addr == freep;
      ApartAbove(fl, live, a);
    }

    /** What a good heap says about the free blocks k and j. */
    lemma Facts(k: nat, j: nat)
      requires Good() && k < |fl| && j < |fl|
      ensures LinkAt(ptr, size, fl, k) && fl[k].addr != NULL
      ensures fl[k].addr in ptr && fl[k].addr in size && size[fl[k].addr] == fl[k].size
      ensures ptr[fl[k].addr] == fl[Succ(fl, k)].addr
      ensures fl[k].size >= 1 ==> k > 0
      ensures fl[k].addr == fl[j].addr ==> k == j
    {
    }

    /** The first call sets up the empty circle: base pointing to itself. */
    method Init()
      requires Valid()
      modifies this`ptr, this`size, this`freep, this`fl
      ensures Valid() && freep != NULL && (old(freep) != NULL ==> freep == old(freep) && fl == old(fl))
    {
      if freep == NULL {
        ptr := ptr[BASE := BASE];
        freep := BASE;
        size := size[BASE := 0];
        fl := [Blk(BASE, 0)];
        assert fl[0].addr == freep;
      }
    }

    /** morecore from within malloc's loop; kf and big are where freep and a large block now are. */
    method Refill(nunits: nat) returns (ok: bool, p: nat, ghost kf: nat, ghost big: nat)
      requires Valid() && freep != NULL && nunits >= 1
      modifies this
      ensures Good() && BASE < brk && freep != NULL && live == old(live) && p == freep
      ensures kf < |fl| && fl[kf].addr == freep && big < |fl|
      ensures ok ==> grants == old(grants) + 1 && refusals == old(refusals) && fl[big].size >= nunits
      ensures !ok ==> core == old(core) && fl == old(fl) && grants == old(grants) && refusals == old(refusals) + 1
    {
      hide Good, Range;
      ghost var hp, n;
      var m;
      m, hp, n := Morecore(nunits);
      ok, p := m.Some?, freep;
      kf :| 0 <= kf < |fl| && fl[kf].addr == freep;
      big := kf;
      if ok {
        big :| 0 <= big < |fl| && fl[big].size >= nunits;
      }
    }

    /** malloc: a new live block of enough units, or null because sbrk failed. A block that fits is
        used without asking for more. The walk around the list ends, after at most one successful
        morecore. The bound on nbytes keeps the C arithmetic
        from wrapping. */
    method Malloc(nbytes: nat) returns (r: Option<nat>)
      requires Valid() && nbytes <= 0x7fff_ffe0
      modifies this
      ensures Valid() && freep != NULL
      ensures r.None? ==> live == old(live) && core == old(core) && grants == old(grants)
      ensures r.None? <==> refusals == old(refusals) + 1
      ensures r.Some? ==> refusals == old(refusals)
      ensures old(freep) != NULL && SomeFits(old(fl), Units(nbytes)) ==> r.Some? && grants == old(grants)
      ensures r.Some? ==> r.value > 0 && r.value - 1 !in old(live) && live == old(live)[r.value - 1 := Units(nbytes)]
      ensures old(grants) <= grants <= old(grants) + 1
      ensures grants == old(grants) ==> core == old(core)
    {
      hide Good;
      var nunits := (nbytes + 7) / 8 + 1;
      Init();
      var ok, p, prevp;
      ghost var k;
      ok, p, prevp, k := Walk(nunits);
      if !ok {
        return None;
      }
      Facts(k, k);
      var a := Take(p, prevp, nunits, k);
      return Some(a + 1);
    }

    /** p and prevp are block k and the block before it. */
    ghost predicate Cursor(k: nat, p: nat, prevp: nat)
      reads this
    {
      k < |fl| && fl[k].addr == p && prevp == fl[Pred(fl, k)].addr != NULL && p in size && size[p] == fl[k].size
    }

    method Step(prevp: nat, ghost i: nat) returns (p: nat, ghost k: nat)
      requires Good() && i < |fl| && fl[i].addr == prevp
      ensures k == Succ(fl, i) && Cursor(k, p, prevp)
    {
      Facts(i, i);
      hide Good;
      p := ptr[prevp];
      k := Succ(fl, i);
      Facts(k, k);
    }

    /** The loop of malloc: to the first block that is large enough, getting more core when the walk
        is back at freep. */
    method Walk(nunits: nat) returns (ok: bool, p: nat, prevp: nat, ghost k: nat)
      requires Valid() && freep != NULL && nunits >= 1
      modifies this
      ensures Good() && BASE < brk && freep != NULL && (exists i :: 0 <= i < |fl| && fl[i].addr == freep)
      ensures ok ==> Cursor(k, p, prevp) && fl[k].size >= nunits
      ensures live == old(live) && old(grants) <= grants <= old(grants) + 1
      ensures !ok ==> grants == old(grants) && refusals == old(refusals) + 1
      ensures ok ==> refusals == old(refusals)
      ensures SomeFits(old(fl), nunits) ==> ok && grants == old(grants)
      ensures grants == old(grants) ==> core == old(core)
    {
      hide Good, Ahead, Succ, Pred, Promised;
      ghost var kf: nat :| 0 <= kf < |fl| && fl[kf].addr == freep;
      ok, prevp := true, freep;
      p, k := Step(prevp, kf);
      ghost var big: nat := kf;
      ghost var fits := SomeFits(fl, nunits);
      if fits {
        big :| 0 <= big < |fl| && fl[big].size >= nunits;
        PromisedStart(fl, kf, big, nunits);
      }
      while size[p] < nunits
        invariant Good() && BASE < brk && kf < |fl| && fl[kf].addr == freep != NULL && Cursor(k, p, prevp)
        invariant ok && live == old(live) && old(grants) <= grants <= old(grants) + 1 && refusals == old(refusals)
        invariant grants == old(grants) ==> core == old(core)
        // after morecore, or if there is one from the start, a block that is large enough lies ahead
        invariant fits ==> grants == old(grants)
        invariant fits || grants > old(grants) ==> Promised(fl, k, kf, big, nunits)
        decreases old(grants) + 1 - grants, Ahead(|fl|, k, kf)
      {
        Facts(k, kf);
        StepOn(fl, k, kf);
        if fits || grants > old(grants) {
          PromisedStep(fl, k, kf, big, nunits);
        }
        if p == freep {
          ok, p, kf, big := Refill(nunits);
          if !ok {
            return;
          }
          k := kf;
          PromisedStart(fl, kf, big, nunits);
        }
        prevp := p;
        p, k := Step(prevp, k);
      }
    }

    /** What the owner of a live block writes behind its header is no concern of the allocator. */
    method Scribble(a: nat, u: nat, x: nat, y: nat)
      requires Valid() && freep != NULL && a in live && a < u < a + live[a]
      modifies this`ptr, this`size
      ensures Valid()
    {
      ptr, size := ptr[u := x], size[u := y];
      forall i | 0 <= i < |fl| ensures LinkAt(ptr, size, fl, i) {
        assert LinkAt(old(ptr), old(size), fl, i);
        NoOverlap(fl, live, a, i);
      }
    }
  }

  ghost predicate SomeFits(fl: seq<Blk>, n: nat) {
    exists i :: 0 <= i < |fl| && fl[i].size >= n
  }

  function Units(nbytes: nat): (n: nat)
    ensures 8 * (n - 1) >= nbytes && 8 * (n - 1) < nbytes + 8
  {
    (nbytes + 7) / 8 + 1
  }

  ghost function Succ(fl: seq<Blk>, k: nat): (j: nat)
    requires k < |fl|
    ensures j < |fl| && Pred(fl, j) == k
  {
    if k + 1 < |fl| then k + 1 else 0
  }

  ghost function Pred(fl: seq<Blk>, k: nat): (j: nat)
    requires k < |fl|
    ensures j < |fl|
  {
    if k == 0 then |fl| - 1 else k - 1
  }

  /** Steps along the circle of n blocks from block k to block kf. */
  ghost function Ahead(n: nat, k: nat, kf: nat): nat
    requires k < n && kf < n
  {
    if k <= kf then kf - k else n - k + kf
  }

  /** One step along the circle is one step closer to freep. */
  lemma StepOn(fl: seq<Blk>, k: nat, kf: nat)
    requires k < |fl| && kf < |fl|
    ensures k != kf ==> Ahead(|fl|, Succ(fl, k), kf) < Ahead(|fl|, k, kf)
  {
  }

  /** Block big is large enough and lies ahead of block k, no further than freep. */
  ghost predicate Promised(fl: seq<Blk>, k: nat, kf: nat, big: nat, n: nat) {
    && k < |fl| && kf < |fl| && big < |fl| && fl[big].size >= n
    && Ahead(|fl|, big, kf) <= Ahead(|fl|, k, kf)
  }

  /** From behind freep every block lies ahead. */
  lemma PromisedStart(fl: seq<Blk>, kf: nat, big: nat, n: nat)
    requires kf < |fl| && big < |fl| && fl[big].size >= n
    ensures Promised(fl, Succ(fl, kf), kf, big, n)
  {
  }

  /** A block that is too small is not the one, so the walk is not at freep yet. */
  lemma PromisedStep(fl: seq<Blk>, k: nat, kf: nat, big: nat, n: nat)
    requires Promised(fl, k, kf, big, n) && fl[k].size < n
    ensures k != kf && Promised(fl, Succ(fl, k), kf, big, n)
  {
  }

  lemma NoLiveAt(fl: seq<Blk>, live: map<nat, nat>, k: nat)
    requires Ordered(fl) && Apart(fl, live) && k < |fl|
    ensures fl[k].addr !in live
  {
    if fl[k].addr in live {
      LiveSizes(fl, live, k, fl[k].addr);
    }
  }

  lemma ApartAbove(fl: seq<Blk>, live: map<nat, nat>, a: nat)
    requires Apart(fl, live) && a in live
    ensures a > BASE
  {
  }

  lemma WithoutKeeps(fl: seq<Blk>, k: nat, n: nat)
    requires 0 < k < |fl| && n <= fl[k].size
    ensures k - 1 < |Without(fl, k, n)| && Without(fl, k, n)[k - 1].addr == fl[k - 1].addr
  {
  }

  ghost function Range(a: nat, n: nat): iset<nat> {
    iset u: nat | Within(u, a, n)
  }

  predicate Within(u: nat, a: nat, n: nat) { a <= u < a + n }

  /** Fresh memory, seen as one more live block. */
  lemma NewCore(fl: seq<Blk>, live: map<nat, nat>, core: iset<nat>, brk: nat, a: nat, n: nat)
    requires Ordered(fl) && Apart(fl, live) && Conserved(fl, live, core) && BASE < brk <= a && n >= 1
    requires forall u :: u in core ==> u < brk
    ensures a !in live && Apart(fl, live[a := n]) && Conserved(fl, live[a := n], core + Range(a, n))
  {
    hide Ordered, InFree;
    var live' := live[a := n];
    forall b | b in live ensures b + live[b] <= brk {
      var last := b + live[b] - 1;
      assert InLive(live, last);
      assert last in core;
    }
    assert a !in live;
    forall u: nat ensures u in core + Range(a, n) <==> InFree(fl, u) || InLive(live', u) {
      LiveWith(live, a, n, u);
    }
    assert forall u: nat :: InFree(fl, u) ==> u in core;
  }

  /** A header above the break is no free block's header. */
  lemma SizesStay(ptr: map<nat, nat>, size: map<nat, nat>, fl: seq<Blk>, hp: nat, n: nat, core: iset<nat>, brk: nat,
                  live: map<nat, nat>)
    requires Ordered(fl) && Linked(ptr, size, fl) && BASE < brk <= hp
    requires Conserved(fl, live, core) && forall u :: u in core ==> u < brk
    ensures Linked(ptr, size[hp := n], fl)
  {
    var size' := size[hp := n];
    forall i | 0 <= i < |fl| ensures LinkAt(ptr, size', fl, i) {
      assert LinkAt(ptr, size, fl, i);
      if i > 0 {
        assert InFree(fl, fl[i].addr);
      }
    }
  }

  lemma JoinedLarge(fl: seq<Blk>, k: nat, b: Blk)
    requires Gap(fl, k, b)
    ensures exists i :: 0 <= i < |Inserted(fl, k, b)| && Inserted(fl, k, b)[i].size >= b.size
  {
    assert Inserted(fl, k, b)[Before(fl, k, b)] == Joined(fl, k, b);
  }

  /** Away from its gap, the search goes on. */
  lemma NotHere(fl: seq<Blk>, k: nat, t: nat, bp: nat, n: nat)
    requires Ordered(fl) && k < |fl| && Gap(fl, t, Blk(bp, n))
    requires var p, q := fl[k].addr, Next(fl, k); !(bp > p && bp < q) && !(p >= q && (bp > p || bp < q))
    ensures k != t
  {
  }

  lemma Here(fl: seq<Blk>, k: nat, t: nat, bp: nat, n: nat)
    requires Ordered(fl) && k < |fl| && Gap(fl, t, Blk(bp, n))
    requires var p, q := fl[k].addr, Next(fl, k); (bp > p && bp < q) || (p >= q && (bp > p || bp < q))
    ensures k == t
  {
  }

  /** The block that freep points to is on the new list. */
  lemma PStays(fl: seq<Blk>, k: nat, b: Blk)
    requires Gap(fl, k, b)
    ensures exists i :: 0 <= i < |Inserted(fl, k, b)| && Inserted(fl, k, b)[i].addr == fl[k].addr
  {
    assert Inserted(fl, k, b)[k].addr == fl[k].addr;
  }

  /** Free blocks and live blocks have different headers. */
  lemma LiveSizes(fl: seq<Blk>, live: map<nat, nat>, k: nat, bp: nat)
    requires Ordered(fl) && Apart(fl, live) && bp in live && k < |fl|
    ensures forall a :: a in live ==> a != fl[k].addr
  {
    forall a | a in live ensures a != fl[k].addr {
      NoOverlap(fl, live, a, k);
      if k == 0 {
        assert fl[k].addr == BASE;
      }
    }
  }
}
