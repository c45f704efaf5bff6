/** Whole address spaces as values: growing, freeing and copying them, and the kernel's half. */
module AddressSpace {
  import opened Prelude
  import opened Kalloc
  import opened PageTable

  // ---------- growing an address space ----------

  /** How growing ends: with all pages, cleanly short of a page, or short of a table for page v. */
  datatype Outcome = Fits | Short | Starved(v: nat)

  /** Counts down the free pages; computable before the call. */
  function Plan(mem: Mem, pg: nat, first: nat, v: nat, end: nat, free: nat): Outcome
    decreases end - v
  {
    if v >= end then Fits
    else if free == 0 then Short
    else if !NeedsTable(mem, pg, first, v) then Plan(mem, pg, first, v + 1, end, free - 1)
    else if free == 1 then Starved(v)
    else Plan(mem, pg, first, v + 1, end, free - 2)
  }

  /** The pages from first to m are mapped for the user and hold the pages of img. */
  ghost predicate Filled(mem: Mem, pg: nat, first: nat, m: nat, img: seq<Page>) {
    forall u: nat :: first <= u < m && u - first < |img| ==>
      Lookup(mem, pg, u) == Pte(Ppn(Lookup(mem, pg, u)), USERPERM)
        && PageAt(mem, Ppn(Lookup(mem, pg, u))) == img[u - first]
  }

  /** The first n page numbers map the same pages with the same contents. */
  ghost predicate Kept(mem: Mem, mem': Mem, pg: nat, n: nat) {
    forall u: nat :: u < n ==>
      Lookup(mem', pg, u) == Lookup(mem, pg, u)
        && PageAt(mem', Ppn(Lookup(mem, pg, u))) == PageAt(mem, Ppn(Lookup(mem, pg, u)))
  }

  ghost predicate LostOneMore(own: Owners, own': Owners, pg: nat) {
    exists q :: q !in LostPages(own, pg) && LostPages(own', pg) == LostPages(own, pg) + {q}
  }

  /** Mapped pages keep their contents when data pages do. */
  lemma FilledStays(mem: Mem, own: Owners, mem': Mem, pg: nat, first: nat, m: nat, img: seq<Page>)
    requires Space(mem, own, pg) && ContentsKept(mem, own, mem', pg) && Filled(mem, pg, first, m, img)
             && Contiguous(mem, pg, m)
    requires m <= USERPAGES && forall u: nat :: u < m ==> Lookup(mem', pg, u) == Lookup(mem, pg, u)
    ensures Filled(mem', pg, first, m, img)
  {
    forall u: nat | first <= u < m && u - first < |img|
      ensures Lookup(mem', pg, u) == Pte(Ppn(Lookup(mem', pg, u)), USERPERM)
              && PageAt(mem', Ppn(Lookup(mem', pg, u))) == img[u - first]
    {
      assert DataOk(mem, own, pg, u);
    }
  }

  lemma KeptStays(mem: Mem, own: Owners, mem': Mem, pg: nat, n: nat, m: nat)
    requires Space(mem, own, pg) && ContentsKept(mem, own, mem', pg) && n <= m <= USERPAGES && Contiguous(mem, pg, m)
    requires forall u: nat :: u < n ==> Lookup(mem', pg, u) == Lookup(mem, pg, u)
    ensures Kept(mem, mem', pg, n)
  {
    forall u: nat | u < n ensures PageAt(mem', Ppn(Lookup(mem, pg, u))) == PageAt(mem, Ppn(Lookup(mem, pg, u))) {
      assert DataOk(mem, own, pg, u);
    }
  }

  /** Before page v: the pages behind are mapped and filled; at most one page, the last, fell into a hole. */
  ghost predicate Growth(mem0: Mem, own0: Owners, mem: Mem, own: Owners, free: nat, pg: nat,
                         first: nat, v: nat, end: nat, img: seq<Page>, plan: Outcome, hole: bool)
  {
    && first <= v <= end <= USERPAGES && |img| == end - first && (hole ==> first < v)
    && OthersKept(mem0, own0, mem, own, pg) && Kept(mem0, mem, pg, first) && KernelSame(mem0, mem, pg)
    && Contiguous(mem, pg, if hole then v - 1 else v) && Filled(mem, pg, first, if hole then v - 1 else v, img)
    && (!hole ==> LostPages(own, pg) == LostPages(own0, pg) && Tables(mem0, mem, pg, first, v))
    && (!hole ==> Plan(mem0, pg, first, v, end, free) == plan)
    && (hole ==> free == 0 && plan == Starved(v - 1) && LostOneMore(own0, own, pg))
  }

  lemma GrowthStart(mem: Mem, own: Owners, free: seq<nat>, pg: nat, first: nat, end: nat, img: seq<Page>)
    requires Pool(mem, free, own) && Contiguous(mem, pg, first) && first <= end <= USERPAGES && |img| == end - first
    ensures Growth(mem, own, mem, own, |free|, pg, first, first, end, img, Plan(mem, pg, first, first, end, |free|),
                   false)
  {
  }

  lemma KeptTwice(mem: Mem, mem1: Mem, mem2: Mem, pg: nat, n: nat)
    requires Kept(mem, mem1, pg, n) && Kept(mem1, mem2, pg, n)
    ensures Kept(mem, mem2, pg, n)
  {
  }

  /** One more page. */
  lemma GrowthAdded(mem0: Mem, own0: Owners, mem: Mem, own: Owners, free: seq<nat>, mem': Mem, own': Owners,
                    free': seq<nat>, pg: nat, first: nat, v: nat, end: nat, img: seq<Page>, plan: Outcome, q: nat)
    requires Growth(mem0, own0, mem, own, |free|, pg, first, v, end, img, plan, false) && v < end && Space(mem, own, pg)
    requires Adds(mem, own, free, mem', own', free', pg, v, img[v - first], Added(q))
    ensures Growth(mem0, own0, mem', own', |free'|, pg, first, v + 1, end, img, plan, false)
  {
    var v' := v + 1;
    OthersTwice(mem0, own0, mem, own, mem', own', pg);
    TablesStep(mem0, mem, mem', pg, first, v, v');
    TableNeeded(mem0, mem, pg, first, v);
    assert Lookup(mem', pg, v) == Pte(q, USERPERM);
    FilledStays(mem, own, mem', pg, first, v, img);
    KeptStays(mem, own, mem', pg, first, v);
    KeptTwice(mem0, mem, mem', pg, first);
    hide Space, Lookup, Word, OthersKept, ContentsKept, RolesKept, Tables, Kept, LostPages;
    assert Filled(mem', pg, first, v', img);
    assert Contiguous(mem', pg, v');
  }

  /** One more page, lost for want of a table. */
  lemma GrowthHole(mem0: Mem, own0: Owners, mem: Mem, own: Owners, free: seq<nat>, mem': Mem, own': Owners,
                   free': seq<nat>, pg: nat, first: nat, v: nat, end: nat, img: seq<Page>, plan: Outcome)
    requires Growth(mem0, own0, mem, own, |free|, pg, first, v, end, img, plan, false) && v < end && Space(mem, own, pg)
    requires Adds(mem, own, free, mem', own', free', pg, v, img[v - first], Hole)
    ensures Growth(mem0, own0, mem', own', |free'|, pg, first, v + 1, end, img, plan, true)
  {
    OthersTwice(mem0, own0, mem, own, mem', own', pg);
    TableNeeded(mem0, mem, pg, first, v);
    FilledStays(mem, own, mem', pg, first, v, img);
    KeptStays(mem, own, mem', pg, first, v);
    KeptTwice(mem0, mem, mem', pg, first);
  }

  /** Growth that ran out of pages is undone by dropping the pages from first on. */
  lemma GrowthUndone(mem0: Mem, own0: Owners, mem1: Mem, own1: Owners, mem2: Mem, own2: Owners, pg: nat,
                     first: nat, v: nat, end: nat, img: seq<Page>, plan: Outcome, hole: bool)
    requires Growth(mem0, own0, mem1, own1, 0, pg, first, v, end, img, plan, hole) && v < end
    requires Dropped(mem1, mem2, pg, if hole then v - 1 else v, first, end)
    requires Space(mem2, own2, pg) && ContentsKept(mem1, own2, mem2, pg) && OthersKept(mem1, own1, mem2, own2, pg)
    requires LostPages(own2, pg) == LostPages(own1, pg)
    ensures OthersKept(mem0, own0, mem2, own2, pg) && Contiguous(mem2, pg, first) && Kept(mem0, mem2, pg, first)
    ensures KernelSame(mem0, mem2, pg)
    ensures if hole then plan == Starved(v - 1) && LostOneMore(own0, own2, pg)
            else plan == Short && LostPages(own2, pg) == LostPages(own0, pg)
  {
    OthersTwice(mem0, own0, mem1, own1, mem2, own2, pg);
    assert Contiguous(mem2, pg, first);
    forall u: nat | u < first ensures PageAt(mem2, Ppn(Lookup(mem2, pg, u))) == PageAt(mem1, Ppn(Lookup(mem2, pg, u))) {
      assert DataOk(mem2, own2, pg, u);
    }
  }

  lemma GrowthContiguous(mem0: Mem, own0: Owners, mem: Mem, own: Owners, free: nat, pg: nat,
                         first: nat, v: nat, end: nat, img: seq<Page>, plan: Outcome, hole: bool)
    requires Growth(mem0, own0, mem, own, free, pg, first, v, end, img, plan, hole)
    ensures (hole ==> first < v) && v <= USERPAGES && Contiguous(mem, pg, if hole then v - 1 else v)
  {
  }

  /** Page v is not mapped yet. */
  lemma GrowthNext(mem0: Mem, own0: Owners, mem: Mem, own: Owners, free: seq<nat>, pg: nat,
                   first: nat, v: nat, end: nat, img: seq<Page>, plan: Outcome, hole: bool)
    requires Growth(mem0, own0, mem, own, |free|, pg, first, v, end, img, plan, hole) && v < end
    ensures v < USERPAGES && !P(Lookup(mem, pg, v))
  {
  }

  lemma NoMemory(mem: Mem, own: Owners, free: seq<nat>, mem': Mem, own': Owners, free': seq<nat>, pg: nat, v: nat,
                 page: Page)
    requires Adds(mem, own, free, mem', own', free', pg, v, page, OutOfMemory)
    ensures free == [] && free' == [] && mem' == mem && own' == own
  {
  }

  /** After a hole there is no page left to add. */
  lemma NotInHole(mem0: Mem, own0: Owners, mem: Mem, own: Owners, free: seq<nat>, mem': Mem, own': Owners,
                  free': seq<nat>, pg: nat, first: nat, v: nat, end: nat, img: seq<Page>, plan: Outcome, hole: bool,
                  page: Page, step: Step)
    requires Growth(mem0, own0, mem, own, |free|, pg, first, v, end, img, plan, hole)
    requires Adds(mem, own, free, mem', own', free', pg, v, page, step) && !step.OutOfMemory?
    ensures !hole
  {
  }

  lemma GrowsBack(mem0: Mem, own0: Owners, mem: Mem, own: Owners, pg: nat,
                  first: nat, v: nat, end: nat, img: seq<Page>, plan: Outcome, hole: bool)
    requires first <= v < end && (hole ==> first < v) && OthersKept(mem0, own0, mem, own, pg)
    requires Contiguous(mem, pg, first) && Kept(mem0, mem, pg, first) && KernelSame(mem0, mem, pg)
    requires if hole then plan == Starved(v - 1) && LostOneMore(own0, own, pg)
             else plan == Short && LostPages(own, pg) == LostPages(own0, pg)
    ensures Grows(mem0, own0, mem, own, pg, first, end, img, plan) && !plan.Fits? && plan != Starved(end - 1)
  {
  }

  /** How many pages the address space has afterwards. */
  function Reached(plan: Outcome, first: nat, end: nat): nat {
    if plan.Fits? then end else if end > 0 && plan == Starved(end - 1) then end - 1 else first
  }

  /** What allocuvm leaves: the pages reached, the old ones as they were, the new ones filled from img;
      a page is lost exactly when a table was missing. */
  ghost predicate Grows(mem: Mem, own: Owners, mem': Mem, own': Owners, pg: nat, first: nat, end: nat, img: seq<Page>,
                        plan: Outcome) {
    && OthersKept(mem, own, mem', own', pg) && Kept(mem, mem', pg, first) && KernelSame(mem, mem', pg)
    && Contiguous(mem', pg, Reached(plan, first, end)) && Filled(mem', pg, first, Reached(plan, first, end), img)
    && if plan.Starved? then LostOneMore(own, own', pg) else LostPages(own', pg) == LostPages(own, pg)
  }

  lemma GrowthDone(mem0: Mem, own0: Owners, mem: Mem, own: Owners, free: nat, pg: nat,
                   first: nat, end: nat, img: seq<Page>, plan: Outcome, hole: bool)
    requires Growth(mem0, own0, mem, own, free, pg, first, end, end, img, plan, hole)
    ensures Grows(mem0, own0, mem, own, pg, first, end, img, plan)
    ensures plan.Fits? || (end > 0 && plan == Starved(end - 1))
  {
  }

  lemma ContiguousOnce(mem: Mem, pg: nat, m: nat, n: nat)
    requires Contiguous(mem, pg, m) && Contiguous(mem, pg, n) && m <= USERPAGES && n <= USERPAGES
    ensures m == n
  {
    var u := if m < n then m else n;
    assert u < USERPAGES ==> (P(Lookup(mem, pg, u)) <==> u < m);
  }

  lemma {:induction false} PlanRange(mem: Mem, pg: nat, first: nat, v: nat, end: nat, free: nat)
    ensures Plan(mem, pg, first, v, end, free).Starved? ==> v <= Plan(mem, pg, first, v, end, free).v < end
    decreases end - v
  {
    if v < end && free > 0 {
      PlanRange(mem, pg, first, v + 1, end, free - 1);
      if free > 1 {
        PlanRange(mem, pg, first, v + 1, end, free - 2);
      }
    }
  }

  /** The size is recorded rightly unless the very last page found no table. */
  lemma SizeExact(mem: Mem, own: Owners, free: nat, mem': Mem, own': Owners, pg: nat, oldsz: nat, newsz: nat, r: nat)
    requires oldsz <= newsz < KERNBASE
    requires var first, end := Pages(oldsz), Pages(newsz);
             var plan := Plan(mem, pg, first, first, end, free);
             && r == (if plan.Fits? || (end > 0 && plan == Starved(end - 1)) then newsz else 0)
             && Grows(mem, own, mem', own', pg, first, end, seq(end - first, _ => Zeros()), plan)
    ensures Contiguous(mem', pg, Pages(if r == newsz then newsz else oldsz)) <==>
            !(Pages(newsz) > 0
              && Plan(mem, pg, Pages(oldsz), Pages(oldsz), Pages(newsz), free) == Starved(Pages(newsz) - 1))
  {
    hide Contiguous, Kept, OthersKept, Filled;
    var first, end := Pages(oldsz), Pages(newsz);
    var plan := Plan(mem, pg, first, first, end, free);
    if end > 0 && plan == Starved(end - 1) && Contiguous(mem', pg, end) {
      ContiguousOnce(mem', pg, end, end - 1);
      assert false;
    }
  }

  // ---------- freeing and copying an address space ----------

  /** While the tables are being freed: those from directory entry i on are still owned, and the directory is intact. */
  ghost predicate Emptying(mem1: Mem, own1: Owners, mem: Mem, own: Owners, pg: nat, i: nat) {
    && OthersKept(mem1, own1, mem, own, pg) && PageAt(mem, pg) == PageAt(mem1, pg)
    && pg in own && own[pg] == Owner(pg, Dir) && LostPages(own, pg) == LostPages(own1, pg)
    && (forall p: nat :: p in own && own[p].space == pg && !own[p].role.Lost? && p != pg ==>
        own[p].role.Table? && own[p].role.i >= i)
    && (forall j: nat :: j >= i && P(Word(mem1, pg, j)) ==>
          Ppn(Word(mem1, pg, j)) in own && Ppn(Word(mem1, pg, j)) != pg
            && own[Ppn(Word(mem1, pg, j))] == Owner(pg, Table(j)))
    && (forall p: nat :: p in own && own[p].space == pg && own[p].role.Table? ==>
          P(Word(mem1, pg, own[p].role.i)) && Ppn(Word(mem1, pg, own[p].role.i)) == p)
  }

  lemma EmptyingStart(mem: Mem, free: seq<nat>, own: Owners, pg: nat)
    requires Pool(mem, free, own) && Space(mem, own, pg) && Contiguous(mem, pg, 0)
    ensures Emptying(mem, own, mem, own, pg, 0)
  {
    forall p: nat | p in own && own[p].space == pg && !own[p].role.Lost? && p != pg ensures own[p].role.Table? {
      assert OwnerOk(mem, own, p);
    }
    forall j: nat | P(Word(mem, pg, j))
      ensures Ppn(Word(mem, pg, j)) in own && own[Ppn(Word(mem, pg, j))] == Owner(pg, Table(j))
    {
      assert TableOk(mem, own, pg, j);
    }
    forall p: nat | p in own && own[p].space == pg && own[p].role.Table?
      ensures P(Word(mem, pg, own[p].role.i)) && Ppn(Word(mem, pg, own[p].role.i)) == p
    {
      assert OwnerOk(mem, own, p);
    }
  }

  lemma EmptyingStep(mem1: Mem, own1: Owners, mem: Mem, own: Owners, mem': Mem, own': Owners, pg: nat, i: nat, i': nat,
                     t: nat)
    requires Emptying(mem1, own1, mem, own, pg, i) && i' == i + 1
    requires if P(Word(mem1, pg, i)) then t == Ppn(Word(mem1, pg, i)) && t < |mem| && mem' == mem[t := Junk()]
             && own' == own - {t}
             else mem' == mem && own' == own
    ensures Emptying(mem1, own1, mem', own', pg, i')
  {
    if P(Word(mem1, pg, i)) {
      assert own[t] == Owner(pg, Table(i));
    }
    assert LostPages(own', pg) == LostPages(own, pg);
  }

  lemma AllDropped(mem: Mem, mem': Mem, pg: nat, n: nat)
    requires Dropped(mem, mem', pg, n, Pages(0), Pages(KERNBASE)) && n <= USERPAGES
    ensures Contiguous(mem', pg, 0)
  {
  }

  lemma EmptyingEntry(mem1: Mem, own1: Owners, mem: Mem, own: Owners, free: seq<nat>, pg: nat, i: nat)
    requires Emptying(mem1, own1, mem, own, pg, i) && Pool(mem, free, own) && i < ENTRIES
    ensures pg < |mem| && |mem[pg]| == ENTRIES && mem[pg][i] == Word(mem1, pg, i)
    ensures P(mem[pg][i]) ==> Ppn(mem[pg][i]) in own
  {
  }

  lemma EmptyingEnd(mem1: Mem, own1: Owners, mem: Mem, own: Owners, free: seq<nat>, pg: nat)
    requires Emptying(mem1, own1, mem, own, pg, ENTRIES) && Pool(mem, free, own)
    ensures pg in own && own[pg] == Owner(pg, Dir)
  {
  }

  lemma DirectoryFreed(mem1: Mem, own1: Owners, mem: Mem, own: Owners, mem': Mem, own': Owners, pg: nat)
    requires Emptying(mem1, own1, mem, own, pg, ENTRIES) && pg < |mem| && |mem[pg]| == ENTRIES
    requires mem' == mem[pg := Junk()] && own' == own - {pg}
    ensures OthersKept(mem1, own1, mem', own', pg) && LostPages(own', pg) == LostPages(own1, pg)
    ensures forall p: nat :: p in own' && own'[p].space == pg ==> own'[p].role.Lost?
  {
  }

  /** Pages that are not lost belong to an address space that still has its directory. */
  ghost predicate Alive(own: Owners) {
    forall p: nat :: p in own && !own[p].role.Lost? ==>
      own[p].space in own && own[own[p].space] == Owner(own[p].space, Dir)
  }

  lemma AliveKept(mem: Mem, own: Owners, mem': Mem, own': Owners, pg: nat)
    requires Alive(own) && OthersKept(mem, own, mem', own', pg) && pg in own' && own'[pg] == Owner(pg, Dir)
    ensures Alive(own')
  {
  }

  /** A new directory is an empty address space. */
  lemma NewSpace(mem: Mem, own: Owners, d: nat, mem': Mem, own': Owners)
    requires Alive(own) && Sound(mem, own) && d !in own && d < |mem|
    requires mem' == mem[d := Zeros()] && own' == own[d := Owner(d, Dir)]
    ensures Space(mem', own', d) && Contiguous(mem', d, 0) && OthersKept(mem, own, mem', own', d) && Alive(own')
    ensures LostPages(own', d) == LostPages(own, d) && forall j: nat :: !P(Word(mem', d, j))
  {
    forall j: nat ensures !P(Word(mem', d, j)) && TableOk(mem', own', d, j) {
      assert Word(mem', d, j) == 0;
    }
    forall v: nat ensures !P(Lookup(mem', d, v)) && DataOk(mem', own', d, v) {
      assert Word(mem', d, Pdx(v)) == 0;
    }
  }

  // ---------- the kernel's half ----------

  /** One row of kmap. A row that ends at the top of the address space has physEnd 0, and its size wraps around. */
  datatype Kmap = Kmap(virt: nat, physStart: nat, physEnd: nat, perm: Perm) {
    function Size(): nat { (physEnd - physStart) % 0x1_0000_0000 }
  }

  const EXTMEM := 0x10_0000
  const PHYSTOP := 0xE00_0000
  const DEVSPACE := 0xFE00_0000
  const KERNPAGES := 65        // the directory and 56 + 8 tables

  /** Where the linker may put the kernel's data: a page between KERNLINK and the end of memory. */
  predicate Linked(data: nat) { KERNBASE + EXTMEM < data * PGSIZE < KERNBASE + PHYSTOP }

  function KernelMap(data: nat): (rows: seq<Kmap>)
    requires Linked(data)
    ensures |rows| == 4
  {
    [ Kmap(KERNBASE, 0, EXTMEM, PTE_W),
      Kmap(KERNBASE + EXTMEM, EXTMEM, data * PGSIZE - KERNBASE, 0),
      Kmap(data * PGSIZE, data * PGSIZE - KERNBASE, PHYSTOP, PTE_W),
      Kmap(DEVSPACE, DEVSPACE, 0, PTE_W) ]
  }

  /** What the kernel finds at page number u: physical memory from KERNBASE on, read-only between the I/O space and
      the kernel's data, and the devices at their own addresses. */
  function KernelEntry(data: nat, u: nat): nat {
    if USERPAGES <= u < USERPAGES + PHYSTOP / PGSIZE then
      Pte(u - USERPAGES, if USERPAGES + EXTMEM / PGSIZE <= u < data then 0 else PTE_W)
    else if DEVSPACE / PGSIZE <= u < ALLPAGES then Pte(u, PTE_W)
    else 0
  }

  /** The first page number that the first k rows leave alone, the devices aside. */
  function MappedTo(data: nat, k: nat): nat {
    match k
    case 0 => USERPAGES
    case 1 => USERPAGES + EXTMEM / PGSIZE
    case 2 => data
    case 3 => USERPAGES + PHYSTOP / PGSIZE
    case _ => ALLPAGES
  }

  /** The last table that the first k rows use, the devices aside. */
  function LastTable(data: nat, k: nat): nat
    requires Linked(data)
  {
    match k
    case 0 => USERTABLES - 1
    case 1 => USERTABLES
    case 2 => Pdx(data - 1)
    case _ => USERTABLES + 55
  }

  predicate HasTable(data: nat, k: nat, j: nat)
    requires Linked(data)
  {
    USERTABLES <= j <= LastTable(data, k) || (k >= 4 && ENTRIES - 8 <= j < ENTRIES)
  }

  function TablesUsed(data: nat, k: nat): int
    requires Linked(data)
  {
    LastTable(data, k) - (USERTABLES - 1) + if k >= 4 then 8 else 0
  }

  /** The new directory d after k rows: what it maps, its tables, and the pages that took. */
  ghost predicate KernelStage(mem0: Mem, own0: Owners, free0: nat, mem: Mem, own: Owners, free: nat, d: nat, data: nat,
                              k: nat)
    requires Linked(data)
  {
    && OthersKept(mem0, own0, mem, own, d) && LostPages(own, d) == LostPages(own0, d)
    && (forall u: nat :: Lookup(mem, d, u) == if u < MappedTo(data, k) then KernelEntry(data, u) else 0)
    && (forall j: nat :: P(Word(mem, d, j)) <==> HasTable(data, k, j))
    && free0 == free + 1 + TablesUsed(data, k)
  }

  /** A run of n pages takes a table for every directory entry it reaches beyond j0, the last one present. */
  lemma {:induction false} CountTables(mem: Mem, pg: nat, first: nat, n: nat, j0: nat)
    requires n > 0 && j0 <= Pdx(first) <= j0 + 1
    requires forall j: nat :: Pdx(first) <= j <= Pdx(first + (n - 1)) ==> (P(Word(mem, pg, j)) <==> j <= j0)
    ensures NewTables(mem, pg, first, n) == Pdx(first + (n - 1)) - j0
  {
    hide P, Word;
    var v := first + (n - 1);
    if n == 1 {
      assert NewTables(mem, pg, first, 0) == 0;
    } else {
      assert first + (n - 1 - 1) == v - 1;
      assert Pdx(v) == if Ptx(v) == 0 then Pdx(v - 1) + 1 else Pdx(v - 1);
      assert Pdx(first) <= Pdx(v - 1);
      CountTables(mem, pg, first, n - 1, j0);
    }
  }

  lemma {:induction false} FewerTables(mem: Mem, pg: nat, first: nat, m: nat, n: nat)
    requires m < n && NeedsTable(mem, pg, first, first + m)
    ensures NewTables(mem, pg, first, m) < NewTables(mem, pg, first, n)
  {
    hide NeedsTable;
    if m < n - 1 {
      FewerTables(mem, pg, first, m, n - 1);
    } else {
      assert n - 1 == m;
    }
  }

  /** Row k as page numbers. */
  lemma RowPages(data: nat, k: nat)
    requires Linked(data) && k < 4
    ensures var row := KernelMap(data)[k];
            var first, end := row.virt / PGSIZE, MappedTo(data, k + 1);
            && row.Size() > 0 && row.virt + row.Size() <= ALLPAGES * PGSIZE && row.physStart % PGSIZE == 0
            && USERPAGES <= MappedTo(data, k) <= first < end == (row.virt + row.Size() - 1) / PGSIZE + 1
            && (k < 3 ==> first == MappedTo(data, k)) && (k == 3 ==> first == DEVSPACE / PGSIZE)
            && (forall u: nat :: first <= u < end ==>
                KernelEntry(data, u) == Pte(row.physStart / PGSIZE + (u - first), row.perm))
            && (forall u: nat :: MappedTo(data, k) <= u < first ==> KernelEntry(data, u) == 0)
  {
    hide Pte;
  }

  /** Row k makes exactly the tables it should. */
  lemma RowTables(mem: Mem, d: nat, data: nat, k: nat, k': nat, first: nat, n: nat)
    requires Linked(data) && k < 4 && k' == k + 1 && n > 0 && first + n == MappedTo(data, k')
    requires first == if k < 3 then MappedTo(data, k) else DEVSPACE / PGSIZE
    requires forall j: nat :: P(Word(mem, d, j)) <==> HasTable(data, k, j)
    ensures NewTables(mem, d, first, n) == TablesUsed(data, k') - TablesUsed(data, k)
    ensures forall j: nat :: HasTable(data, k', j) <==> HasTable(data, k, j) || Pdx(first) <= j <= Pdx(first + (n - 1))
  {
    hide P, Word;
    CountTables(mem, d, first, n, if k < 3 then LastTable(data, k) else ENTRIES - 9);
    if k < 3 {
      assert Pdx(first + (n - 1)) == LastTable(data, k');
      assert USERTABLES <= Pdx(first) <= LastTable(data, k) + 1 <= LastTable(data, k') + 1;
    } else {
      assert LastTable(data, k') == LastTable(data, k);
      assert Pdx(first) == ENTRIES - 8 && Pdx(first + (n - 1)) == ENTRIES - 1;
    }
  }

  lemma StageStart(mem: Mem, own: Owners, free: nat, d: nat, data: nat, mem': Mem, own': Owners)
    requires Linked(data) && Alive(own) && Sound(mem, own) && d !in own && d < |mem| && free > 0
    requires mem' == mem[d := Zeros()] && own' == own[d := Owner(d, Dir)]
    ensures Space(mem', own', d) && KernelStage(mem, own, free, mem', own', free - 1, d, data, 0)
  {
    NewSpace(mem, own, d, mem', own');
    assert forall j: nat :: !HasTable(data, 0, j);
    assert forall u: nat :: u < USERPAGES ==> KernelEntry(data, u) == 0;
  }

  lemma StageNext(mem0: Mem, own0: Owners, free0: nat, mem: Mem, own: Owners, free: seq<nat>, mem': Mem, own': Owners,
                  free': seq<nat>, d: nat, data: nat, k: nat, first: nat, last: nat, done: nat)
    requires Linked(data) && k < 4 && KernelStage(mem0, own0, free0, mem, own, |free|, d, data, k)
    requires first == KernelMap(data)[k].virt / PGSIZE && last + 1 == MappedTo(data, k + 1)
    requires RunEnds(mem, own, free, mem', own', free', d, first, last,
                     KernelMap(data)[k].physStart / PGSIZE, KernelMap(data)[k].perm, done, Mapped)
    ensures KernelStage(mem0, own0, free0, mem', own', |free'|, d, data, k + 1)
  {
    hide OthersKept, ContentsKept, RolesKept, Lookup, Word, P, Pte, LostPages, KernelEntry, NewTables, HasTable,
         TablesUsed, KernelMap, Linked;
    RowPages(data, k);
    RowTables(mem, d, data, k, k + 1, first, done);
    OthersTwice(mem0, own0, mem, own, mem', own', d);
    assert LostPages(own', d) == LostPages(own, d);
    assert first + done - 1 == first + (done - 1);
  }

  /** A row that finds no page for a table has used up fewer than 65 pages. */
  lemma StageStops(mem0: Mem, own0: Owners, free0: nat, mem: Mem, own: Owners, free: seq<nat>, mem': Mem, own': Owners,
                   free': seq<nat>, d: nat, data: nat, k: nat, first: nat, last: nat, done: nat)
    requires Linked(data) && k < 4 && KernelStage(mem0, own0, free0, mem, own, |free|, d, data, k)
    requires first == KernelMap(data)[k].virt / PGSIZE && last + 1 == MappedTo(data, k + 1)
    requires RunEnds(mem, own, free, mem', own', free', d, first, last,
                     KernelMap(data)[k].physStart / PGSIZE, KernelMap(data)[k].perm, done, NoTable)
    ensures free0 < KERNPAGES && free' == []
    ensures OthersKept(mem0, own0, mem', own', d) && LostPages(own', d) == LostPages(own0, d)
  {
    hide OthersKept, ContentsKept, RolesKept, Lookup, Word, P, Pte, LostPages, KernelEntry, NewTables, HasTable,
         KernelMap, NeedsTable;
    RowPages(data, k);
    var n := last - first + 1;
    RowTables(mem, d, data, k, k + 1, first, n);
    FewerTables(mem, d, first, done, n);
    OthersTwice(mem0, own0, mem, own, mem', own', d);
    assert LostPages(own', d) == LostPages(own, d);
  }

  /** All the pages of free have been taken and are in no address space. */
  ghost function LoseAll(own: Owners, free: seq<nat>, d: nat): Owners {
    own + map p | p in free :: Owner(d, Lost)
  }

  /** The half-made directory d is forgotten: nobody refers to its pages any more. */
  ghost function Forget(own: Owners, d: nat): Owners {
    map p | p in own :: if own[p].space == d then Owner(d, Lost) else own[p]
  }

  /** setupkvm gives up: every page that was free is lost, and all else is as it was. */
  lemma Forgotten(mem0: Mem, free0: seq<nat>, own0: Owners, mem: Mem, own: Owners, d: nat, own': Owners)
    requires Pool(mem0, free0, own0) && Alive(own0) && d !in own0 && Pool(mem, [], own)
    requires OthersKept(mem0, own0, mem, own, d) && LostPages(own, d) == LostPages(own0, d) && own' == Forget(own, d)
    ensures Pool(mem, [], own') && Alive(own') && OthersKept(mem0, own0, mem, own', d)
    ensures own' == LoseAll(own0, free0, d)
  {
    ForgottenOld(mem0, own0, mem, own, d, own');
    ForgottenNew(mem0, free0, own0, mem, own, d, own');
    hide Alive, OthersKept, Pool, LostPages, Forget, LoseAll;
    LostIs(own0, free0, d, own');
  }

  lemma LostIs(own0: Owners, free0: seq<nat>, d: nat, own': Owners)
    requires forall p: nat :: p in own' <==> p in own0 || p in free0
    requires forall p: nat :: p in own0 ==> p in own' && p !in free0 && own'[p] == own0[p]
    requires forall p: nat :: p in own' && p !in own0 ==> own'[p] == Owner(d, Lost)
    ensures own' == LoseAll(own0, free0, d)
  {
  }

  lemma ForgottenNew(mem0: Mem, free0: seq<nat>, own0: Owners, mem: Mem, own: Owners, d: nat, own': Owners)
    requires Pool(mem0, free0, own0) && Alive(own0) && d !in own0 && Pool(mem, [], own) && own' == Forget(own, d)
    requires OthersKept(mem0, own0, mem, own, d) && forall p: nat :: p in own0 ==> p in own' && own'[p] == own0[p]
    ensures Pool(mem, [], own') && Alive(own') && OthersKept(mem0, own0, mem, own', d)
    ensures forall p: nat :: p in own' <==> p in own0 || p in free0
    ensures forall p: nat :: p in own0 ==> p !in free0
    ensures forall p: nat :: p in own' && p !in own0 ==> own'[p] == Owner(d, Lost)
  {
    assert forall p: nat :: p in own' <==> p in own;
  }

  lemma ForgottenOld(mem0: Mem, own0: Owners, mem: Mem, own: Owners, d: nat, own': Owners)
    requires Alive(own0) && d !in own0
    requires OthersKept(mem0, own0, mem, own, d) && LostPages(own, d) == LostPages(own0, d) && own' == Forget(own, d)
    ensures forall p: nat :: p in own0 ==> p in own' && own'[p] == own0[p]
  {
    forall p: nat | p in own0 ensures p in own' && own'[p] == own0[p] {
      assert p in LostPages(own0, d) <==> own0[p].space == d;
      assert p in LostPages(own, d) ==> p in own;
    }
  }

  /** From mem0 on, all the free pages were lost, in the name of the directory d, and nothing else changed. */
  ghost predicate Loses(mem0: Mem, free0: seq<nat>, own0: Owners, mem: Mem, own: Owners, d: nat) {
    d !in own0 && own == LoseAll(own0, free0, d) && OthersKept(mem0, own0, mem, own, d)
  }

  lemma LosesNone(mem: Mem, own: Owners)
    requires Sound(mem, own)
    ensures Loses(mem, [], own, mem, own, 0)
  {
    assert LoseAll(own, [], 0) == own;
  }

  /** A row finds nothing mapped. */
  lemma StageFresh(mem0: Mem, own0: Owners, free0: nat, mem: Mem, own: Owners, free: seq<nat>, mem': Mem, own': Owners,
                   free': seq<nat>, d: nat, data: nat, k: nat, first: nat, last: nat, q: nat, perm: Perm, done: nat,
                   r: MapResult)
    requires Linked(data) && KernelStage(mem0, own0, free0, mem, own, |free|, d, data, k) && first >= MappedTo(data, k)
    requires RunEnds(mem, own, free, mem', own', free', d, first, last, q, perm, done, r)
    ensures !r.Remap?
  {
    hide Progress, MappedTo, Unmapped, KernelEntry;
    assert Lookup(mem, d, first + done) == 0;
  }

  /** The other address spaces after setupkvm gave up. */
  lemma ParentLives(mem0: Mem, free0: seq<nat>, own0: Owners, mem: Mem, own: Owners, d: nat, pg: nat, n: nat)
    requires Loses(mem0, free0, own0, mem, own, d) && Alive(own0) && Space(mem0, own0, pg) && Contiguous(mem0, pg, n)
             && n <= USERPAGES
    ensures Space(mem, own, pg) && Contiguous(mem, pg, n) && Kept(mem0, mem, pg, n) && AllKept(mem0, own0, mem, own)
  {
    NewSpaceStays(mem0, own0, mem, own, d, pg, n);
    NewSpaceKeepsAll(mem0, own0, mem, own, d);
  }

  lemma StageEnd(mem0: Mem, own0: Owners, free0: nat, mem: Mem, own: Owners, free: nat, d: nat, data: nat)
    requires Linked(data) && KernelStage(mem0, own0, free0, mem, own, free, d, data, 4)
    requires Alive(own0) && d in own && own[d] == Owner(d, Dir)
    ensures Alive(own) && Contiguous(mem, d, 0) && KernelHalf(mem, d, data) && free0 == free + KERNPAGES
    ensures OthersKept(mem0, own0, mem, own, d) && LostPages(own, d) == LostPages(own0, d)
    ensures forall j: nat :: j < USERTABLES ==> !P(Word(mem, d, j))
  {
    AliveKept(mem0, own0, mem, own, d);
    forall u: nat | u < USERPAGES ensures !P(Lookup(mem, d, u)) {
      assert KernelEntry(data, u) == 0;
    }
  }

  /** The kernel sees what setupkvm promises. */
  ghost predicate KernelHalf(mem: Mem, d: nat, data: nat) {
    forall u: nat :: u >= USERPAGES ==> Lookup(mem, d, u) == KernelEntry(data, u)
  }

  lemma KernelHalfStays(mem: Mem, mem': Mem, d: nat, data: nat)
    requires KernelHalf(mem, d, data) && KernelSame(mem, mem', d)
    ensures KernelHalf(mem', d, data)
  {
  }

  // ---------- copying an address space ----------

  /** The pages of an address space, as the user sees them. */
  ghost function Image(mem: Mem, pg: nat, n: nat): (img: seq<Page>)
    ensures |img| == n
  {
    seq(n, u requires u >= 0 => PageAt(mem, Ppn(Lookup(mem, pg, u))))
  }

  /** In a new address space every 1024th page needs a table; no memory has to be looked at. */
  function FreshPlan(n: nat, free: nat): Outcome { Plan([], 0, 0, 0, n, free) }

  datatype CopyOutcome = Copied | LosesNothing | LosesOne | LosesEverything

  /** How copying n pages ends with so many free ones: the kernel's half comes first. */
  function CopyPlan(n: nat, free: nat): CopyOutcome {
    if free < KERNPAGES then LosesEverything
    else match FreshPlan(n, free - KERNPAGES)
      case Fits => Copied
      case Short => LosesNothing
      case Starved(_) => LosesOne
  }

  /** n pages and the tables for them. */
  function Cost(n: nat): nat { n + (n + ENTRIES - 1) / ENTRIES }

  /** Every table covers 1024 pages. */
  lemma CostStep(v: nat)
    ensures Cost(v + 1) == Cost(v) + if Ptx(v) == 0 then 2 else 1
    ensures Ptx(v) == 0 ==> Cost(v) == (ENTRIES + 1) * Pdx(v)
    ensures Ptx(v) > 0 ==> Cost(v) == (ENTRIES + 1) * Pdx(v) + Ptx(v) + 1
  {
    assert v == ENTRIES * Pdx(v) + Ptx(v);
    var k, r := Pdx(v), Ptx(v);
    if r == 0 {
      assert (ENTRIES * k + (ENTRIES - 1)) / ENTRIES == k;
      assert (ENTRIES * k + ENTRIES) / ENTRIES == k + 1;
    } else {
      assert (ENTRIES * (k + 1) + (r - 1)) / ENTRIES == k + 1;
      assert (ENTRIES * (k + 1) + r) / ENTRIES == k + 1;
    }
  }

  lemma CostMod(v: nat)
    ensures Cost(v) % (ENTRIES + 1) != 1 && (Ptx(v) == 0 ==> (Cost(v) + 1) % (ENTRIES + 1) == 1)
  {
    hide Cost;
    CostStep(v);
    var k, r := Pdx(v), Ptx(v);
    if r == ENTRIES - 1 {
      assert ((ENTRIES + 1) * k + r + 1) % (ENTRIES + 1) == ENTRIES;
    }
  }

  lemma {:induction false} CostGrows(v: nat, n: nat)
    requires v < n
    ensures Cost(v + 1) <= Cost(n)
    decreases n - v
  {
    hide Cost;
    if v + 1 < n {
      CostStep(v + 1);
      CostGrows(v + 1, n);
    }
  }

  /** The count in closed form, from page v on, when the pages before v came out of all the free ones. */
  lemma {:induction false} PlanIs(v: nat, n: nat, all: nat)
    requires v <= n && Cost(v) <= all
    ensures Plan([], 0, 0, v, n, all - Cost(v)).Fits? <==> all >= Cost(n)
    ensures Plan([], 0, 0, v, n, all - Cost(v)).Starved? <==> all < Cost(n) && all % (ENTRIES + 1) == 1
    decreases n - v
  {
    if v < n {
      CostStep(v);
      CostMod(v);
      CostGrows(v, n);
      assert NeedsTable([], 0, 0, v) <==> Ptx(v) == 0;
      hide Cost, NeedsTable;
      if Cost(v + 1) <= all {
        PlanIs(v + 1, n, all);
      }
    }
  }

  /** HOW A COPY ENDS, from two numbers: it succeeds with 65 pages and the cost of n; loses every free page below 65;
      loses one page when the free ones run out just before a table; and otherwise loses none. */
  lemma CopyPlanIs(n: nat, free: nat)
    ensures CopyPlan(n, free) ==
            if free < KERNPAGES then LosesEverything
            else if free - KERNPAGES >= Cost(n) then Copied
            else if (free - KERNPAGES) % (ENTRIES + 1) == 1 then LosesOne
            else LosesNothing
  {
    if free >= KERNPAGES {
      assert Cost(0) == 0;
      PlanIs(0, n, free - KERNPAGES);
    }
  }

  lemma {:induction false} PlanFresh(mem: Mem, d: nat, v: nat, n: nat, free: nat)
    requires n <= USERPAGES && forall j: nat :: j < USERTABLES ==> !P(Word(mem, d, j))
    ensures Plan(mem, d, 0, v, n, free) == Plan([], 0, 0, v, n, free)
    decreases n - v
  {
    if v < n && free > 0 {
      UserTable(v);
      PlanFresh(mem, d, v + 1, n, free - 1);
      if free > 1 {
        PlanFresh(mem, d, v + 1, n, free - 2);
      }
    }
  }

  /** Everything that was in use stays in use and as it was. */
  ghost predicate AllKept(mem: Mem, own: Owners, mem': Mem, own': Owners) {
    forall p: nat :: p in own && !own[p].role.Lost? ==>
      p in own' && own'[p] == own[p] && PageAt(mem', p) == PageAt(mem, p)
  }

  lemma NewSpaceKeepsAll(mem: Mem, own: Owners, mem': Mem, own': Owners, d: nat)
    requires Alive(own) && d !in own && OthersKept(mem, own, mem', own', d)
    ensures AllKept(mem, own, mem', own')
  {
  }

  /** An abandoned copy leaves nothing behind but the page that was lost, if any. */
  lemma NothingLeft(mem: Mem, own: Owners, mem': Mem, own': Owners, d: nat, lost: bool)
    requires Alive(own) && d !in own && OthersKept(mem, own, mem', own', d)
    requires forall p: nat :: p in own' && own'[p].space == d ==> own'[p].role.Lost?
    requires if lost then LostOneMore(own, own', d) else LostPages(own', d) == LostPages(own, d)
    ensures !lost ==> own' == own
    ensures lost ==> exists q: nat :: q !in own && own' == own[q := Owner(d, Lost)]
  {
    assert forall p: nat :: p in LostPages(own, d) <==> p in own && own[p].space == d;
    assert forall p: nat :: p in LostPages(own', d) <==> p in own' && own'[p].space == d;
    if lost {
      var q :| q !in LostPages(own, d) && LostPages(own', d) == LostPages(own, d) + {q};
      assert q in LostPages(own', d) && q !in own;
      assert own' == own[q := Owner(d, Lost)];
    }
  }

  /** The parent during the copy: unchanged, and page v has its entry. */
  lemma ParentStays(mem0: Mem, mem1: Mem, own1: Owners, mem: Mem, own: Owners, free: nat, d: nat,
                    pg: nat, v: nat, n: nat, plan: Outcome, hole: bool)
    requires Growth(mem1, own1, mem, own, free, d, 0, v, n, Image(mem0, pg, n), plan, hole)
    requires Space(mem1, own1, pg) && pg != d && Kept(mem0, mem1, pg, n) && Contiguous(mem1, pg, n)
    ensures Space(mem, own, pg) && Kept(mem0, mem, pg, n) && Contiguous(mem, pg, n)
    ensures v < n ==> P(Lookup(mem, pg, v)) && PageAt(mem, Ppn(Lookup(mem, pg, v))) == Image(mem0, pg, n)[v]
  {
    OtherSpace(mem1, own1, mem, own, d, pg);
  }

  lemma NewSpaceStays(mem: Mem, own: Owners, mem1: Mem, own1: Owners, d: nat, pg: nat, n: nat)
    requires Space(mem, own, pg) && Contiguous(mem, pg, n) && n <= USERPAGES && d !in own
             && OthersKept(mem, own, mem1, own1, d)
    ensures pg != d && Space(mem1, own1, pg) && Contiguous(mem1, pg, n) && Kept(mem, mem1, pg, n)
  {
    OtherSpace(mem, own, mem1, own1, d, pg);
  }

  lemma CopyAbandoned(mem: Mem, own: Owners, mem1: Mem, own1: Owners, mem3: Mem, own3: Owners, mem4: Mem, own4: Owners,
                      d: nat, pg: nat, n: nat, plan: Outcome)
    requires Alive(own) && d !in own && Space(mem, own, pg) && Contiguous(mem, pg, n) && n <= USERPAGES
    requires OthersKept(mem, own, mem1, own1, d) && OthersKept(mem1, own1, mem3, own3, d)
             && OthersKept(mem3, own3, mem4, own4, d)
    requires LostPages(own1, d) == LostPages(own, d) && LostPages(own4, d) == LostPages(own3, d)
    requires forall p: nat :: p in own4 && own4[p].space == d ==> own4[p].role.Lost?
    requires if plan.Starved? then LostOneMore(own1, own3, d)
             else plan == Short && LostPages(own3, d) == LostPages(own1, d)
    ensures Space(mem4, own4, pg) && Contiguous(mem4, pg, n) && Kept(mem, mem4, pg, n) && AllKept(mem, own, mem4, own4)
    ensures Alive(own4) && (plan.Short? ==> own4 == own)
    ensures plan.Starved? ==> exists q: nat, e: nat :: q !in own && own4 == own[q := Owner(e, Lost)]
  {
    hide OthersKept, Space, LostPages;
    OthersTwice(mem, own, mem1, own1, mem3, own3, d);
    OthersTwice(mem, own, mem3, own3, mem4, own4, d);
    NewSpaceStays(mem, own, mem4, own4, d, pg, n);
    NewSpaceKeepsAll(mem, own, mem4, own4, d);
    NothingLeft(mem, own, mem4, own4, d, plan.Starved?);
  }

  lemma HasDirectory(mem: Mem, own: Owners, pg: nat)
    requires Space(mem, own, pg)
    ensures pg in own && own[pg] == Owner(pg, Dir)
  {
  }

  lemma CopyDone(mem: Mem, own: Owners, mem1: Mem, own1: Owners, mem2: Mem, own2: Owners, free: nat, d: nat, n: nat,
                 img: seq<Page>, plan: Outcome)
    requires Alive(own) && d !in own && OthersKept(mem, own, mem1, own1, d)
    requires Growth(mem1, own1, mem2, own2, free, d, 0, n, n, img, plan, false) && d in own2 && own2[d] == Owner(d, Dir)
    ensures Alive(own2) && AllKept(mem, own, mem2, own2) && Contiguous(mem2, d, n) && Filled(mem2, d, 0, n, img)
            && plan == Fits
    ensures KernelSame(mem1, mem2, d)
  {
    hide OthersKept, Alive, AllKept;
    OthersTwice(mem, own, mem1, own1, mem2, own2, d);
    AliveKept(mem, own, mem2, own2, d);
    NewSpaceKeepsAll(mem, own, mem2, own2, d);
  }

  /** The step that ends a copy early: out of pages, or a page lost for want of a table. */
  lemma CopyStops(mem1: Mem, own1: Owners, mem: Mem, own: Owners, free: seq<nat>, mem': Mem, own': Owners,
                  free': seq<nat>, d: nat, v: nat, n: nat, img: seq<Page>, plan: Outcome, step: Step)
    requires Growth(mem1, own1, mem, own, |free|, d, 0, v, n, img, plan, false) && v < n && Space(mem, own, d)
    requires Adds(mem, own, free, mem', own', free', d, v, img[v], step) && !step.Added?
    ensures Growth(mem1, own1, mem', own', |free'|, d, 0, if step.Hole? then v + 1 else v, n, img, plan, step.Hole?)
    ensures if step.Hole? then plan == Starved(v) && LostOneMore(own1, own', d)
            else plan == Short && LostPages(own', d) == LostPages(own1, d)
    ensures Contiguous(mem', d, v) && OthersKept(mem1, own1, mem', own', d)
  {
    if step.Hole? {
      assert img[v] == img[v - 0];
      GrowthHole(mem1, own1, mem, own, free, mem', own', free', d, 0, v, n, img, plan);
    }
  }

  /** Starvation is possible: with an empty directory and one free page the first page is lost and not mapped. */
  lemma StarvedExample(mem: Mem, own: Owners)
    requires mem == [Zeros(), Zeros(), Zeros()] && own == map[1 := Owner(1, Dir)]
    ensures Pool(mem, [2], own) && Space(mem, own, 1) && Contiguous(mem, 1, Pages(0))
    ensures Plan(mem, 1, Pages(0), Pages(0), Pages(PGSIZE), 1) == Starved(Pages(PGSIZE) - 1)
  {
    assert forall p: nat, j: nat :: Word(mem, p, j) == 0;
    assert forall v: nat :: Lookup(mem, 1, v) == 0;
  }

  /** A parent with one page: directory 1, table 2, page 3; pages 4, 5 and 6 are free. */
  ghost function SmallParent(): (mem: Mem) {
    [Zeros(), Zeros()[0 := Pte(2, USERPERM)], Zeros()[0 := Pte(3, USERPERM)], Zeros(), Zeros(), Zeros(), Zeros()]
  }

  /** copyuvm may be called on it, finds too few pages for the kernel's half, and loses all three. */
  lemma SetupLeakExample(mem: Mem, own: Owners)
    requires mem == SmallParent() && own == map[1 := Owner(1, Dir), 2 := Owner(1, Table(0)), 3 := Owner(1, Data(0))]
    ensures Pool(mem, [4, 5, 6], own) && Alive(own) && Space(mem, own, 1) && Contiguous(mem, 1, Pages(PGSIZE))
    ensures CopyPlan(Pages(PGSIZE), |[4, 5, 6]|) == LosesEverything
    ensures forall d: nat :: LoseAll(own, [4, 5, 6], d).Keys == {1, 2, 3, 4, 5, 6}
  {
    SmallParentMaps();
    hide SmallParent, Word, Lookup;
  }

  lemma SmallParentMaps()
    ensures Shape(SmallParent()) && |SmallParent()| == 7
    ensures forall j: nat :: Word(SmallParent(), 1, j) == if j == 0 then Pte(2, USERPERM) else 0
    ensures forall u: nat :: Lookup(SmallParent(), 1, u) == if u == 0 then Pte(3, USERPERM) else 0
  {
    var mem, pde, pte := SmallParent(), Pte(2, USERPERM), Pte(3, USERPERM);
    hide Pte;
    assert forall j: nat :: Word(mem, 1, j) == if j == 0 then pde else 0;
    assert forall j: nat :: Word(mem, 2, j) == if j == 0 then pte else 0;
    forall u: nat ensures Lookup(mem, 1, u) == if u == 0 then pte else 0 {
      assert Pdx(u) == 0 && Ptx(u) == 0 ==> u == 0;
    }
  }
}
