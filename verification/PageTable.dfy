/** Page tables as values: the two-level tables of xv6/vm.c over untyped pages. A table entry is a word like any
    other. */
module PageTable {
  import opened Prelude
  import opened Kalloc

  const KERNBASE := 0x8000_0000
  const USERPAGES := 0x80000   // KERNBASE / PGSIZE
  const USERTABLES := 512      // page directory entries below KERNBASE
  const ALLPAGES := 0x100000   // pages of the 32-bit address space

  /** Permission bits of an entry, without PTE_P. */
  type Perm = p: nat | p % 2 == 0 && p < PGSIZE

  const PTE_W: Perm := 2
  const USERPERM: Perm := 6    // PTE_W | PTE_U

  /** PGROUNDUP in pages. */
  function Pages(sz: nat): nat { (sz + PGSIZE - 1) / PGSIZE }

  function Pdx(v: nat): nat { v / ENTRIES }

  function Ptx(v: nat): (i: nat)
    ensures i < ENTRIES
  {
    v % ENTRIES
  }

  lemma SplitPage(u: nat, v: nat)
    requires Pdx(u) == Pdx(v) && Ptx(u) == Ptx(v)
    ensures u == v
  {
  }

  lemma UserTable(v: nat)
    ensures v < USERPAGES <==> Pdx(v) < USERTABLES
  {
  }

  predicate P(entry: nat) { entry % 2 == 1 }

  function Ppn(entry: nat): nat { entry / PGSIZE }

  function Pte(ppn: nat, perm: Perm): (entry: nat)
    ensures P(entry) && Ppn(entry) == ppn
  {
    assert ppn * PGSIZE + perm + 1 == 2 * (ppn * (PGSIZE / 2) + perm / 2) + 1;
    ppn * PGSIZE + perm + 1
  }

  // ---------- memory as values ----------

  function Word(mem: Mem, p: nat, i: nat): nat {
    if p < |mem| && i < |mem[p]| then mem[p][i] else 0
  }

  function SetWord(mem: Mem, p: nat, i: nat, w: nat): Mem
    requires p < |mem| && i < |mem[p]|
  {
    var page: Page := mem[p][i := w];
    mem[p := page]
  }

  /** What the paging hardware finds for page number v: the table entry, or 0 without a table. */
  function Lookup(mem: Mem, pg: nat, v: nat): nat {
    var pde := Word(mem, pg, Pdx(v));
    if P(pde) then Word(mem, Ppn(pde), Ptx(v)) else 0
  }

  /** A table entry refers to a page with exactly that role, and conversely. */
  ghost predicate TableOk(mem: Mem, own: Owners, pg: nat, i: nat) {
    var pde := Word(mem, pg, i);
    P(pde) ==> Ppn(pde) in own && own[Ppn(pde)] == Owner(pg, Table(i))
  }

  /** Kernel addresses map memory that the address space does not own. */
  ghost predicate DataOk(mem: Mem, own: Owners, pg: nat, v: nat) {
    var pte := Lookup(mem, pg, v);
    v < USERPAGES && P(pte) ==> Ppn(pte) in own && own[Ppn(pte)] == Owner(pg, Data(v))
  }

  ghost predicate OwnerOk(mem: Mem, own: Owners, p: nat)
    requires p in own
  {
    var pg := own[p].space;
    match own[p].role
    case Dir => p == pg
    case Table(i) => P(Word(mem, pg, i)) && Ppn(Word(mem, pg, i)) == p
    case Data(v) => v < USERPAGES && P(Lookup(mem, pg, v)) && Ppn(Lookup(mem, pg, v)) == p
    case Lost => true
  }

  /** The address space with directory pg: every present user entry and every table is owned, and every page owned is
      present. */
  ghost predicate Space(mem: Mem, own: Owners, pg: nat) {
    && pg in own && own[pg] == Owner(pg, Dir)
    && (forall i: nat :: TableOk(mem, own, pg, i))
    && (forall v: nat :: DataOk(mem, own, pg, v))
    && (forall p :: p in own && own[p].space == pg ==> OwnerOk(mem, own, p))
  }

  /** NO PHYSICAL PAGE IS MAPPED TWICE for users, not even by different address spaces, and none is a table. */
  lemma MappedOnce(mem: Mem, own: Owners, pg: nat, pg': nat, v: nat, v': nat)
    requires Space(mem, own, pg) && Space(mem, own, pg') && v < USERPAGES && v' < USERPAGES
    requires P(Lookup(mem, pg, v)) && P(Lookup(mem, pg', v')) && Ppn(Lookup(mem, pg, v)) == Ppn(Lookup(mem, pg', v'))
    ensures pg == pg' && v == v'
  {
    assert DataOk(mem, own, pg, v);
    assert DataOk(mem, own, pg', v');
  }

  // ---------- the steps ----------

  /** Memory outside the address space and the free list stays as it is. */
  ghost predicate OthersKept(mem: Mem, own: Owners, mem': Mem, own': Owners, pg: nat) {
    && |mem'| == |mem|
    && (forall p: nat :: p in own && own[p].space != pg ==>
        p in own' && own'[p] == own[p] && p < |mem| && mem'[p] == mem[p])
    && (forall p: nat :: p in own' && own'[p].space != pg ==> p in own && own[p] == own'[p])
  }

  function PageAt(mem: Mem, p: nat): Page { if p < |mem| then mem[p] else [] }

  /** Pages that hold no tables keep their contents. */
  ghost predicate ContentsKept(mem: Mem, own: Owners, mem': Mem, pg: nat) {
    forall p: nat :: p in own && own[p].space == pg && (own[p].role.Data? || own[p].role.Lost?) ==>
      PageAt(mem', p) == PageAt(mem, p)
  }

  ghost function LostPages(own: Owners, pg: nat): set<nat> { set p | p in own && own[p] == Owner(pg, Lost) }

  /** Data pages of the address space that keep their role. */
  ghost predicate RolesKept(own: Owners, own': Owners, pg: nat) {
    forall p: nat :: p in own && own[p].space == pg && (own[p].role.Data? || own[p].role.Lost?) ==>
      p in own' && own'[p].space == pg && (own'[p].role.Data? || own'[p].role.Lost?)
  }

  lemma RolesTwice(own: Owners, own1: Owners, own2: Owners, pg: nat)
    requires RolesKept(own, own1, pg) && RolesKept(own1, own2, pg)
    ensures RolesKept(own, own2, pg)
  {
  }

  lemma ContentsTwice(mem: Mem, own: Owners, mem1: Mem, own1: Owners, mem2: Mem, pg: nat)
    requires ContentsKept(mem, own, mem1, pg) && ContentsKept(mem1, own1, mem2, pg) && RolesKept(own, own1, pg)
    ensures ContentsKept(mem, own, mem2, pg)
  {
  }

  lemma OthersNone(mem: Mem, freelist: seq<nat>, own: Owners, pg: nat)
    requires Pool(mem, freelist, own)
    ensures OthersKept(mem, own, mem, own, pg)
  {
  }

  lemma Found(mem: Mem, pg: nat, v: nat)
    ensures !P(Word(mem, pg, Pdx(v))) ==> !P(Lookup(mem, pg, v))
    ensures P(Word(mem, pg, Pdx(v))) ==> Lookup(mem, pg, v) == Word(mem, Ppn(Word(mem, pg, Pdx(v))), Ptx(v))
  {
  }

  lemma EntryThere(mem: Mem, t: nat, i: nat)
    requires Shape(mem) && t < |mem| && i < ENTRIES
    ensures |mem[t]| == ENTRIES && mem[t][i] == Word(mem, t, i)
  {
  }

  lemma OthersTwice(mem: Mem, own: Owners, mem1: Mem, own1: Owners, mem2: Mem, own2: Owners, pg: nat)
    requires OthersKept(mem, own, mem1, own1, pg) && OthersKept(mem1, own1, mem2, own2, pg)
    ensures OthersKept(mem, own, mem2, own2, pg)
  {
  }

  /** Another address space is untouched. */
  lemma OtherSpace(mem: Mem, own: Owners, mem': Mem, own': Owners, pg: nat, other: nat)
    requires Space(mem, own, other) && OthersKept(mem, own, mem', own', pg) && other != pg
    ensures Space(mem', own', other)
    ensures forall v: nat :: Lookup(mem', other, v) == Lookup(mem, other, v)
    ensures forall v: nat :: v < USERPAGES && P(Lookup(mem, other, v)) ==>
              Ppn(Lookup(mem, other, v)) < |mem| && mem'[Ppn(Lookup(mem, other, v))] == mem[Ppn(Lookup(mem, other, v))]
  {
    forall i: nat ensures Word(mem', other, i) == Word(mem, other, i) && TableOk(mem', own', other, i) {
      assert TableOk(mem, own, other, i);
    }
    forall v: nat
      ensures Lookup(mem', other, v) == Lookup(mem, other, v) && DataOk(mem', own', other, v)
      ensures v < USERPAGES && P(Lookup(mem, other, v)) ==>
                Ppn(Lookup(mem, other, v)) < |mem|
                  && mem'[Ppn(Lookup(mem, other, v))] == mem[Ppn(Lookup(mem, other, v))]
    {
      assert TableOk(mem, own, other, Pdx(v));
      assert DataOk(mem, own, other, v);
    }
    forall p | p in own' && own'[p].space == other ensures OwnerOk(mem', own', p) {
      assert OwnerOk(mem, own, p);
    }
  }

  /** A fresh page table is hung under directory entry i. */
  lemma TableAdded(mem: Mem, own: Owners, pg: nat, i: nat, t: nat, mem': Mem, own': Owners)
    requires Space(mem, own, pg) && Sound(mem, own) && i < ENTRIES && !P(Word(mem, pg, i))
    requires t !in own && t < |mem|
    requires mem' == SetWord(mem[t := Zeros()], pg, i, Pte(t, USERPERM)) && own' == own[t := Owner(pg, Table(i))]
    ensures Space(mem', own', pg) && OthersKept(mem, own, mem', own', pg)
    ensures forall v: nat :: Lookup(mem', pg, v) == Lookup(mem, pg, v)
    ensures forall j: nat :: Word(mem', pg, j) == if j == i then Pte(t, USERPERM) else Word(mem, pg, j)
  {
    forall j: nat
      ensures Word(mem', pg, j) == (if j == i then Pte(t, USERPERM) else Word(mem, pg, j)) && TableOk(mem', own', pg, j)
    {
      assert TableOk(mem, own, pg, j);
    }
    hide Pte;
    forall v: nat ensures Lookup(mem', pg, v) == Lookup(mem, pg, v) && DataOk(mem', own', pg, v) {
      assert TableOk(mem, own, pg, Pdx(v));
      assert DataOk(mem, own, pg, v);
    }
    forall p | p in own' && own'[p].space == pg ensures OwnerOk(mem', own', p) {
      assert p != t ==> OwnerOk(mem, own, p);
    }
  }

  /** A table comes out of the free list: no other page changes hands. */
  lemma TableTaken(own: Owners, own': Owners, pg: nat, i: nat, t: nat)
    requires own' == own || (t !in own && own' == own[t := Owner(pg, Table(i))])
    ensures RolesKept(own, own', pg) && LostPages(own', pg) == LostPages(own, pg)
    ensures forall q: nat :: q in own && own[q].role.Lost? ==> q in own' && own'[q] == own[q]
  {
  }

  /** Who owns what once page q is entered for page number v: a user page is in hand no more. */
  ghost function Given(own: Owners, pg: nat, v: nat, q: nat): Owners {
    if v < USERPAGES then own[q := Owner(pg, Data(v))] else own
  }

  /** A page q, for a user address one in hand, is entered for page number v. */
  lemma PageMapped(mem: Mem, own: Owners, pg: nat, v: nat, t: nat, q: nat, perm: Perm, mem': Mem, own': Owners)
    requires Space(mem, own, pg) && Sound(mem, own)
    requires P(Word(mem, pg, Pdx(v))) && t == Ppn(Word(mem, pg, Pdx(v))) && t < |mem| && !P(Lookup(mem, pg, v))
    requires v < USERPAGES ==> q in own && own[q] == Owner(pg, Lost)
    requires mem' == SetWord(mem, t, Ptx(v), Pte(q, perm)) && own' == Given(own, pg, v, q)
    ensures Space(mem', own', pg) && OthersKept(mem, own, mem', own', pg) && ContentsKept(mem, own, mem', pg)
    ensures RolesKept(own, own', pg)
    ensures LostPages(own', pg) == LostPages(own, pg) - (if v < USERPAGES then {q} else {})
    ensures forall u: nat :: Lookup(mem', pg, u) == if u == v then Pte(q, perm) else Lookup(mem, pg, u)
    ensures forall j: nat :: Word(mem', pg, j) == Word(mem, pg, j)
  {
    assert TableOk(mem, own, pg, Pdx(v));
    EntryWritten(mem, own, pg, v, t, Pte(q, perm), mem');
    hide Pte;
    forall j: nat ensures TableOk(mem', own', pg, j) {
      assert TableOk(mem, own, pg, j);
    }
    forall u: nat ensures DataOk(mem', own', pg, u) {
      assert DataOk(mem, own, pg, u);
    }
    forall p | p in own' && own'[p].space == pg ensures OwnerOk(mem', own', p) {
      assert p != q || v >= USERPAGES ==> OwnerOk(mem, own, p);
    }
  }

  /** Writing one entry of a table changes what is found for one page number. */
  lemma EntryWritten(mem: Mem, own: Owners, pg: nat, v: nat, t: nat, w: nat, mem': Mem)
    requires Space(mem, own, pg) && Sound(mem, own)
    requires P(Word(mem, pg, Pdx(v))) && t == Ppn(Word(mem, pg, Pdx(v))) && t < |mem|
    requires mem' == SetWord(mem, t, Ptx(v), w)
    ensures forall u: nat :: Lookup(mem', pg, u) == if u == v then w else Lookup(mem, pg, u)
    ensures forall j: nat :: Word(mem', pg, j) == Word(mem, pg, j)
  {
    assert TableOk(mem, own, pg, Pdx(v));
    assert t != pg;
    forall u: nat ensures Lookup(mem', pg, u) == if u == v then w else Lookup(mem, pg, u) {
      assert TableOk(mem, own, pg, Pdx(u));
      if Pdx(u) == Pdx(v) && Ptx(u) == Ptx(v) {
        SplitPage(u, v);
      }
    }
  }

  /** The page at page number v is freed and its entry cleared. */
  lemma PageUnmapped(mem: Mem, own: Owners, pg: nat, v: nat, t: nat, q: nat, mem': Mem, own': Owners)
    requires Space(mem, own, pg) && Sound(mem, own) && Shape(mem')
    requires P(Word(mem, pg, Pdx(v))) && t == Ppn(Word(mem, pg, Pdx(v))) && t < |mem|
    requires v < USERPAGES && P(Lookup(mem, pg, v)) && q == Ppn(Lookup(mem, pg, v)) && q < |mem|
    requires mem' == SetWord(mem[q := Junk()], t, Ptx(v), 0) && own' == own - {q}
    ensures Space(mem', own', pg) && OthersKept(mem, own, mem', own', pg) && ContentsKept(mem, own', mem', pg)
    ensures LostPages(own', pg) == LostPages(own, pg) && q in own
    ensures forall u: nat :: Lookup(mem', pg, u) == if u == v then 0 else Lookup(mem, pg, u)
    ensures forall j: nat :: Word(mem', pg, j) == Word(mem, pg, j)
  {
    assert TableOk(mem, own, pg, Pdx(v));
    assert DataOk(mem, own, pg, v);
    var mid := SetWord(mem, t, Ptx(v), 0);
    assert mem' == mid[q := Junk()];
    EntryWritten(mem, own, pg, v, t, 0, mid);
    forall j: nat ensures Word(mem', pg, j) == Word(mem, pg, j) && TableOk(mem', own', pg, j) {
      assert TableOk(mem, own, pg, j);
    }
    forall u: nat ensures Lookup(mem', pg, u) == Lookup(mid, pg, u) && DataOk(mem', own', pg, u) {
      assert TableOk(mem, own, pg, Pdx(u));
      assert DataOk(mem, own, pg, u);
    }
    forall p | p in own' && own'[p].space == pg ensures OwnerOk(mem', own', p) {
      assert OwnerOk(mem, own, p);
    }
  }

  /** The user mappings are exactly the first n pages. */
  ghost predicate Contiguous(mem: Mem, pg: nat, n: nat) {
    forall u: nat :: u < USERPAGES ==> (P(Lookup(mem, pg, u)) <==> u < n)
  }

  /** The kernel's half is the same. */
  ghost predicate KernelSame(mem: Mem, mem': Mem, pg: nat) {
    forall u: nat :: u >= USERPAGES ==> Lookup(mem', pg, u) == Lookup(mem, pg, u)
  }

  // ---------- mapping a run of pages ----------

  datatype MapResult = Mapped | NoTable | Remap

  /** Page v needs a new table: its directory entry was absent and no page before v has made one. */
  predicate NeedsTable(mem: Mem, pg: nat, first: nat, v: nat) {
    !P(Word(mem, pg, Pdx(v))) && (v == first || Ptx(v) == 0)
  }

  /** How many tables mapping n pages from first on makes. */
  function NewTables(mem: Mem, pg: nat, first: nat, n: nat): nat {
    if n == 0 then 0
    else NewTables(mem, pg, first, n - 1) + (if NeedsTable(mem, pg, first, first + (n - 1)) then 1 else 0)
  }

  /** The directory entries after the pages from first to v were mapped. */
  ghost predicate Tables(mem: Mem, mem': Mem, pg: nat, first: nat, v: nat) {
    forall j: nat :: P(Word(mem', pg, j)) <==> P(Word(mem, pg, j)) || (first < v && Pdx(first) <= j <= Pdx(v - 1))
  }

  lemma TablesStep(mem: Mem, mem1: Mem, mem2: Mem, pg: nat, first: nat, v: nat, v': nat)
    requires first <= v && v' == v + 1 && Tables(mem, mem1, pg, first, v)
    requires forall j: nat :: P(Word(mem2, pg, j)) <==> P(Word(mem1, pg, j)) || j == Pdx(v)
    ensures Tables(mem, mem2, pg, first, v')
  {
    hide Word, P;
    assert v' - 1 == v;
    assert first < v ==> Pdx(v) == Pdx(v - 1) || Pdx(v) == Pdx(v - 1) + 1;
  }

  lemma TableNeeded(mem: Mem, mem1: Mem, pg: nat, first: nat, v: nat)
    requires first <= v && Tables(mem, mem1, pg, first, v)
    ensures NeedsTable(mem, pg, first, v) <==> !P(Word(mem1, pg, Pdx(v)))
  {
    hide Word, P;
    if first < v {
      assert Pdx(v) == Pdx(v - 1) <==> Ptx(v) != 0;
      assert Pdx(first) <= Pdx(v);
    }
  }

  /** The pages from q on that go to user addresses from v on have been allocated and are in no table yet. */
  ghost predicate InHand(own: Owners, pg: nat, v: nat, q: nat, n: nat) {
    forall p: nat :: q <= p < q + n && v + (p - q) < USERPAGES ==> p in own && own[p] == Owner(pg, Lost)
  }

  /** The n page numbers from first on map the n pages from q on, and the rest is as before. */
  ghost predicate MapsRun(mem: Mem, mem': Mem, pg: nat, first: nat, q: nat, perm: Perm, n: nat) {
    forall u: nat :: Lookup(mem', pg, u) == if first <= u < first + n then Pte(q + (u - first), perm)
      else Lookup(mem, pg, u)
  }

  /** The n pages from q on that went to user addresses are in hand no more. */
  ghost predicate LosesRun(own: Owners, own': Owners, pg: nat, first: nat, q: nat, n: nat) {
    forall p: nat :: p in LostPages(own', pg) <==>
      p in LostPages(own, pg) && !(q <= p < q + n && first + (p - q) < USERPAGES)
  }

  /** So far the n page numbers from first on map the n pages from q on, with the tables that takes,
      and nothing else has changed. */
  ghost predicate Progress(mem: Mem, own: Owners, free: nat, mem': Mem, own': Owners, free': nat,
                           pg: nat, first: nat, q: nat, perm: Perm, n: nat)
  {
    && OthersKept(mem, own, mem', own', pg) && ContentsKept(mem, own, mem', pg) && RolesKept(own, own', pg)
    && MapsRun(mem, mem', pg, first, q, perm, n) && LosesRun(own, own', pg, first, q, n)
    && Tables(mem, mem', pg, first, first + n) && free == free' + NewTables(mem, pg, first, n)
  }

  lemma NoProgress(mem: Mem, free: seq<nat>, own: Owners, pg: nat, first: nat, q: nat, perm: Perm)
    requires Pool(mem, free, own)
    ensures Progress(mem, own, |free|, mem, own, |free|, pg, first, q, perm, 0)
  {
  }

  /** How one page is mapped: it finds an entry there, or no table and no page for one, or it is done. */
  ghost predicate OneEntry(mem: Mem, free: seq<nat>, mem': Mem, free': seq<nat>, pg: nat, v: nat, r: MapResult) {
    && (r.Remap? <==> P(Lookup(mem, pg, v)))
    && (r.NoTable? <==> !P(Word(mem, pg, Pdx(v))) && free == [])
    && (!r.Mapped? ==> mem' == mem)
    && free' == (if r.Mapped? && !P(Word(mem, pg, Pdx(v))) then free[1..] else free)
    && (forall j: nat :: P(Word(mem', pg, j)) <==> P(Word(mem, pg, j)) || (r.Mapped? && j == Pdx(v)))
  }

  /** One more page of the run is mapped. */
  lemma ProgressStep(mem: Mem, own: Owners, free: nat, mem1: Mem, own1: Owners, free1: seq<nat>, mem2: Mem,
                     own2: Owners, free2: seq<nat>, pg: nat, first: nat, q: nat, perm: Perm, n: nat, v: nat, p: nat,
                     n': nat)
    requires Progress(mem, own, free, mem1, own1, |free1|, pg, first, q, perm, n)
    requires v == first + n && p == q + n && n' == n + 1
    requires OthersKept(mem1, own1, mem2, own2, pg) && ContentsKept(mem1, own1, mem2, pg) && RolesKept(own1, own2, pg)
    requires MapsRun(mem1, mem2, pg, v, p, perm, 1) && OneEntry(mem1, free1, mem2, free2, pg, v, Mapped)
    requires LostPages(own2, pg) == LostPages(own1, pg) - (if v < USERPAGES then {p} else {})
    ensures Progress(mem, own, free, mem2, own2, |free2|, pg, first, q, perm, n')
  {
    hide Lookup, Pte, OthersKept, ContentsKept, RolesKept, LostPages, P, Word, NeedsTable;
    OthersTwice(mem, own, mem1, own1, mem2, own2, pg);
    ContentsTwice(mem, own, mem1, own1, mem2, pg);
    RolesTwice(own, own1, own2, pg);
    TablesStep(mem, mem1, mem2, pg, first, v, v + 1);
    TableNeeded(mem, mem1, pg, first, v);
    RunMaps(mem, mem1, mem2, pg, first, q, perm, n, v, p, n');
    assert first + n' == v + 1;
    hide Tables, MapsRun;
  }

  lemma RunMaps(mem: Mem, mem1: Mem, mem2: Mem, pg: nat, first: nat, q: nat, perm: Perm, n: nat, v: nat, p: nat,
                n': nat)
    requires MapsRun(mem, mem1, pg, first, q, perm, n) && v == first + n && p == q + n && n' == n + 1
    requires MapsRun(mem1, mem2, pg, v, p, perm, 1)
    ensures MapsRun(mem, mem2, pg, first, q, perm, n')
  {
    hide Lookup, Pte;
  }

  /** Mapping for the kernel needs no page in hand. */
  lemma KernelInHand(own: Owners, pg: nat, v: nat, q: nat, n: nat)
    requires v >= USERPAGES
    ensures InHand(own, pg, v, q, n)
  {
  }

  lemma StillInHand(own1: Owners, own2: Owners, pg: nat, v: nat, v': nat, p: nat, p': nat, n: nat)
    requires InHand(own1, pg, v, p, n) && p' == p + 1 && v' == v + 1 && n > 0
    requires LostPages(own2, pg) == LostPages(own1, pg) - (if v < USERPAGES then {p} else {})
    ensures InHand(own2, pg, v', p', n - 1)
  {
    forall x: nat | p' <= x < p' + (n - 1) && v' + (x - p') < USERPAGES
      ensures x in own2 && own2[x] == Owner(pg, Lost)
    {
      assert x in LostPages(own1, pg);
      assert x in LostPages(own2, pg);
    }
  }

  ghost predicate Unmapped(mem: Mem, pg: nat, first: nat, end: nat) {
    forall u: nat :: first <= u < end ==> !P(Lookup(mem, pg, u))
  }

  /** Where mappages stands before page number v: the pages behind are mapped, those ahead are in hand;
      or why it has stopped there. */
  ghost predicate RunInv(mem0: Mem, own0: Owners, free0: seq<nat>, mem: Mem, own: Owners, free: seq<nat>,
                         pg: nat, first: nat, last: nat, q: nat, perm: Perm, v: nat, r: MapResult)
  {
    && first <= v <= last + 1 && Progress(mem0, own0, |free0|, mem, own, |free|, pg, first, q, perm, v - first)
    && (v == first ==> mem == mem0 && free == free0) && Unmapped(mem0, pg, first, v)
    && match r
       case Mapped => InHand(own, pg, v, q + (v - first), last - v + 1)
       case NoTable => v <= last && free == [] && NeedsTable(mem0, pg, first, v)
       case Remap => v <= last && P(Lookup(mem0, pg, v))
  }

  lemma RunStart(mem: Mem, own: Owners, free: seq<nat>, pg: nat, first: nat, last: nat, q: nat, perm: Perm)
    requires Pool(mem, free, own) && first <= last && InHand(own, pg, first, q, last - first + 1)
    ensures RunInv(mem, own, free, mem, own, free, pg, first, last, q, perm, first, Mapped)
  {
    hide Pool;
    NoProgress(mem, free, own, pg, first, q, perm);
  }

  /** The run has stopped at v. */
  lemma RunStops(mem0: Mem, own0: Owners, free0: seq<nat>, mem1: Mem, own1: Owners, free1: seq<nat>, mem2: Mem,
                 own2: Owners, free2: seq<nat>, pg: nat, first: nat, last: nat, q: nat, perm: Perm, v: nat,
                 r: MapResult)
    requires RunInv(mem0, own0, free0, mem1, own1, free1, pg, first, last, q, perm, v, Mapped) && v <= last
    requires OneEntry(mem1, free1, mem2, free2, pg, v, r) && !r.Mapped? && own2 == own1
    ensures RunInv(mem0, own0, free0, mem2, own2, free2, pg, first, last, q, perm, v, r)
  {
    hide OthersKept, ContentsKept, RolesKept, Lookup, Word, LostPages;
    assert Tables(mem0, mem1, pg, first, v) by { assert first + (v - first) == v; }
    TableNeeded(mem0, mem1, pg, first, v);
  }

  lemma RunGoes(mem0: Mem, own0: Owners, free0: seq<nat>, mem1: Mem, own1: Owners, free1: seq<nat>, mem2: Mem,
                own2: Owners, free2: seq<nat>, pg: nat, first: nat, last: nat, q: nat, perm: Perm, v: nat, p: nat)
    requires RunInv(mem0, own0, free0, mem1, own1, free1, pg, first, last, q, perm, v, Mapped) && v <= last
             && p == q + (v - first)
    requires OneEntry(mem1, free1, mem2, free2, pg, v, Mapped) && MapsRun(mem1, mem2, pg, v, p, perm, 1)
    requires OthersKept(mem1, own1, mem2, own2, pg) && ContentsKept(mem1, own1, mem2, pg) && RolesKept(own1, own2, pg)
    requires LostPages(own2, pg) == LostPages(own1, pg) - (if v < USERPAGES then {p} else {})
    ensures RunInv(mem0, own0, free0, mem2, own2, free2, pg, first, last, q, perm, v + 1, Mapped)
  {
    hide OthersKept, ContentsKept, RolesKept, Lookup, Word, LostPages, OneEntry, MapsRun, Progress, InHand;
    var n := v - first;
    ProgressStep(mem0, own0, |free0|, mem1, own1, free1, mem2, own2, free2, pg, first, q, perm, n, v, p, n + 1);
    StillInHand(own1, own2, pg, v, v + 1, p, p + 1, last - v + 1);
    StillUnmapped(mem0, own0, |free0|, mem1, own1, free1, mem2, free2, pg, first, q, perm, n, v, v + 1);
  }

  lemma StillUnmapped(mem0: Mem, own0: Owners, free0: nat, mem1: Mem, own1: Owners, free1: seq<nat>, mem2: Mem,
                      free2: seq<nat>, pg: nat, first: nat, q: nat, perm: Perm, n: nat, v: nat, v': nat)
    requires Progress(mem0, own0, free0, mem1, own1, |free1|, pg, first, q, perm, n) && v == first + n && v' == v + 1
    requires OneEntry(mem1, free1, mem2, free2, pg, v, Mapped) && Unmapped(mem0, pg, first, v)
    ensures Unmapped(mem0, pg, first, v')
  {
    hide OthersKept, ContentsKept, RolesKept, Lookup, Word, LosesRun, Tables, Pte;
    assert Lookup(mem1, pg, v) == Lookup(mem0, pg, v);
  }

  /** How mappages ends: with all pages mapped; at a page whose table could not be had; or at the first page
      that was mapped already. The pages before it are mapped in each case. */
  ghost predicate RunEnds(mem0: Mem, own0: Owners, free0: seq<nat>, mem: Mem, own: Owners, free: seq<nat>,
                          pg: nat, first: nat, last: nat, q: nat, perm: Perm, done: nat, r: MapResult)
  {
    && first + done <= last + 1 && Progress(mem0, own0, |free0|, mem, own, |free|, pg, first, q, perm, done)
    && (done == 0 ==> mem == mem0 && free == free0) && Unmapped(mem0, pg, first, first + done)
    && match r
       case Mapped => first + done == last + 1
       case NoTable => first + done <= last && free == [] && NeedsTable(mem0, pg, first, first + done)
       case Remap => first + done <= last && P(Lookup(mem0, pg, first + done))
  }

  lemma RunDone(mem0: Mem, own0: Owners, free0: seq<nat>, mem: Mem, own: Owners, free: seq<nat>,
                pg: nat, first: nat, last: nat, q: nat, perm: Perm, v: nat, r: MapResult)
    requires RunInv(mem0, own0, free0, mem, own, free, pg, first, last, q, perm, v, r) && (r.Mapped? ==> v > last)
    ensures first <= v && RunEnds(mem0, own0, free0, mem, own, free, pg, first, last, q, perm, v - first, r)
  {
    hide Progress, Unmapped, InHand;
    assert first + (v - first) == v;
  }

  /** Fewer owners, otherwise the same. */
  ghost predicate OwnsLess(own: Owners, own': Owners) {
    forall p :: p in own' ==> p in own && own'[p] == own[p]
  }

  /** The pages from first to end, and no others, are gone. */
  ghost predicate Dropped(mem: Mem, mem': Mem, pg: nat, n: nat, first: nat, end: nat) {
    && (forall u: nat :: u < USERPAGES ==> (P(Lookup(mem', pg, u)) <==> u < n && !(first <= u < end)))
    && (forall u: nat :: P(Lookup(mem', pg, u)) ==> Lookup(mem', pg, u) == Lookup(mem, pg, u))
    && KernelSame(mem, mem', pg)
    && (forall j: nat :: Word(mem', pg, j) == Word(mem, pg, j))
  }

  /** A page is taken off the free list and cleared. */
  lemma PageTaken(mem: Mem, own: Owners, pg: nat, q: nat, page: Page, mem': Mem, own': Owners)
    requires Space(mem, own, pg) && Sound(mem, own) && q !in own && q < |mem|
    requires mem' == mem[q := page] && own' == own[q := Owner(pg, Lost)]
    ensures Space(mem', own', pg) && OthersKept(mem, own, mem', own', pg)
    ensures ContentsKept(mem, own, mem', pg) && RolesKept(own, own', pg)
    ensures SameMap(mem, mem', pg) && LostPages(own', pg) == LostPages(own, pg) + {q}
  {
    forall j: nat ensures Word(mem', pg, j) == Word(mem, pg, j) && TableOk(mem', own', pg, j) {
      assert TableOk(mem, own, pg, j);
    }
    forall v: nat ensures Lookup(mem', pg, v) == Lookup(mem, pg, v) && DataOk(mem', own', pg, v) {
      assert TableOk(mem, own, pg, Pdx(v));
      assert DataOk(mem, own, pg, v);
    }
    forall p | p in own' && own'[p].space == pg ensures OwnerOk(mem', own', p) {
      assert p != q ==> OwnerOk(mem, own, p);
    }
  }

  ghost predicate SameMap(mem: Mem, mem': Mem, pg: nat) {
    && (forall j: nat :: Word(mem', pg, j) == Word(mem, pg, j))
    && (forall v: nat :: Lookup(mem', pg, v) == Lookup(mem, pg, v))
  }

  /** What adding one page came to. */
  datatype Step = OutOfMemory | Added(q: nat) | Hole

  /** From mem to mem' one page holding `page` was mapped at v, or was lost, or nothing happened. */
  ghost predicate Adds(mem: Mem, own: Owners, free: seq<nat>, mem': Mem, own': Owners, free': seq<nat>,
                       pg: nat, v: nat, page: Page, step: Step)
  {
    && OthersKept(mem, own, mem', own', pg) && ContentsKept(mem, own, mem', pg) && RolesKept(own, own', pg)
    && match step
       case OutOfMemory => free == [] && mem' == mem && own' == own && free' == free
       case Added(q) =>
         && MapsRun(mem, mem', pg, v, q, USERPERM, 1) && PageAt(mem', q) == page
            && LostPages(own', pg) == LostPages(own, pg)
         && (forall j: nat :: P(Word(mem', pg, j)) <==> P(Word(mem, pg, j)) || j == Pdx(v))
         && |free| == |free'| + (if P(Word(mem, pg, Pdx(v))) then 1 else 2)
       case Hole =>
         && |free| == 1 && free' == [] && !P(Word(mem, pg, Pdx(v))) && SameMap(mem, mem', pg)
         && exists q :: q !in LostPages(own, pg) && LostPages(own', pg) == LostPages(own, pg) + {q}
  }

  lemma AddsNone(mem: Mem, own: Owners, free: seq<nat>, pg: nat, v: nat, page: Page)
    requires Pool(mem, free, own) && free == []
    ensures Adds(mem, own, free, mem, own, free, pg, v, page, OutOfMemory)
  {
    hide Space, Lookup, Word;
  }

  lemma AddReady(mem: Mem, mem1: Mem, own1: Owners, pg: nat, v: nat, q: nat)
    requires SameMap(mem, mem1, pg) && !P(Lookup(mem, pg, v)) && q in own1 && own1[q] == Owner(pg, Lost)
             && v < USERPAGES
    ensures v * PGSIZE + PGSIZE <= KERNBASE && v * PGSIZE / PGSIZE == v && (v * PGSIZE + PGSIZE - 1) / PGSIZE == v
    ensures !P(Lookup(mem1, pg, v)) && InHand(own1, pg, v, q, 1)
  {
  }

  /** Taking a page and then mapping it. */
  lemma AddsUp(mem: Mem, own: Owners, free: seq<nat>, mem1: Mem, own1: Owners, free1: seq<nat>,
               mem2: Mem, own2: Owners, free2: seq<nat>, pg: nat, v: nat, page: Page, q: nat, r: MapResult, done: nat)
    requires free != [] && free1 == free[1..] && q !in own && PageAt(mem1, q) == page && v < USERPAGES
    requires OthersKept(mem, own, mem1, own1, pg) && ContentsKept(mem, own, mem1, pg) && RolesKept(own, own1, pg)
    requires SameMap(mem, mem1, pg) && LostPages(own1, pg) == LostPages(own, pg) + {q} && !P(Lookup(mem1, pg, v))
    requires RunEnds(mem1, own1, free1, mem2, own2, free2, pg, v, v, q, USERPERM, done, r)
    ensures Adds(mem, own, free, mem2, own2, free2, pg, v, page, if r.Mapped? then Added(q) else Hole)
  {
    OthersTwice(mem, own, mem1, own1, mem2, own2, pg);
    ContentsTwice(mem, own, mem1, own1, mem2, pg);
    RolesTwice(own, own1, own2, pg);
    assert q in LostPages(own1, pg) && q !in LostPages(own, pg);
    assert PageAt(mem2, q) == page;
    hide OthersKept, ContentsKept, RolesKept, Lookup, Word, Pte;
    if r.Mapped? {
      assert LostPages(own2, pg) == LostPages(own, pg);
      assert NewTables(mem1, pg, v, 1) == if NeedsTable(mem1, pg, v, v) then 1 else 0;
      assert v + done - 1 == v;
    } else {
      assert LostPages(own2, pg) == LostPages(own, pg) + {q};
      assert NewTables(mem1, pg, v, 0) == 0;
    }
  }
}
