/** Address spaces in place: walkpgdir, mappages and the functions of xv6/vm.c that grow, shrink, free and copy
    them. */
module Vm {
  import opened Prelude
  import opened Kalloc
  import opened PageTable
  import opened AddressSpace

  ghost predicate Valid(ram: Memory, pg: nat)
    reads ram
  {
    Pool(ram.mem, ram.freelist, ram.own) && Space(ram.mem, ram.own, pg)
  }

  /** walkpgdir: the table that holds the entry for page number v, made on demand. */
  method WalkPgdir(ram: Memory, pg: nat, v: nat, alloc: bool) returns (t: Option<nat>)
    requires Valid(ram, pg) && v < ALLPAGES
    modifies ram
    ensures Valid(ram, pg) && OthersKept(old(ram.mem), old(ram.own), ram.mem, ram.own, pg)
            && ContentsKept(old(ram.mem), old(ram.own), ram.mem, pg)
    ensures forall u: nat :: Lookup(ram.mem, pg, u) == Lookup(old(ram.mem), pg, u)
    ensures t.None? <==> !P(Word(old(ram.mem), pg, Pdx(v))) && (!alloc || old(ram.freelist) == [])
    ensures t.Some? ==> P(Word(ram.mem, pg, Pdx(v))) && t.value == Ppn(Word(ram.mem, pg, Pdx(v))) && t.value < |ram.mem|
    ensures t.None? || P(Word(old(ram.mem), pg, Pdx(v))) ==>
              ram.mem == old(ram.mem)
              && ram.freelist == old(ram.freelist) && ram.own == old(ram.own)
    ensures t.Some? && !P(Word(old(ram.mem), pg, Pdx(v))) ==>
              ram.freelist == old(ram.freelist)[1..] && t.value !in old(ram.own)
                && ram.own == old(ram.own)[t.value := Owner(pg, Table(Pdx(v)))]
    ensures forall j: nat :: j != Pdx(v) ==> Word(ram.mem, pg, j) == Word(old(ram.mem), pg, j)
  {
    hide OwnerOk, Pte;
    var pde := ram.mem[pg][Pdx(v)];
    assert TableOk(ram.mem, ram.own, pg, Pdx(v));
    if P(pde) {
      return Some(Ppn(pde));
    }
    if !alloc {
      return None;
    }
    t := ram.Kalloc(Owner(pg, Table(Pdx(v))));
    if t.Some? {
      ram.mem := ram.mem[t.value := Zeros()];
      ram.mem := SetWord(ram.mem, pg, Pdx(v), Pte(t.value, USERPERM));
      TableAdded(old(ram.mem), old(ram.own), pg, Pdx(v), t.value, ram.mem, ram.own);
    }
  }

  /** One round of mappages. */
  method MapPage(ram: Memory, pg: nat, v: nat, q: nat, perm: Perm) returns (r: MapResult)
    requires Valid(ram, pg) && v < ALLPAGES && (v < USERPAGES ==> q in ram.own && ram.own[q] == Owner(pg, Lost))
    modifies ram
    ensures Valid(ram, pg) && OthersKept(old(ram.mem), old(ram.own), ram.mem, ram.own, pg)
            && ContentsKept(old(ram.mem), old(ram.own), ram.mem, pg)
    ensures OneEntry(old(ram.mem), old(ram.freelist), ram.mem, ram.freelist, pg, v, r)
            && RolesKept(old(ram.own), ram.own, pg)
    ensures r.Mapped? ==> MapsRun(old(ram.mem), ram.mem, pg, v, q, perm, 1)
    ensures r.Mapped? ==> LostPages(ram.own, pg) == LostPages(old(ram.own), pg) - (if v < USERPAGES then {q} else {})
    ensures !r.Mapped? ==> ram.own == old(ram.own)
  {
    hide Space, Pte, OthersKept, ContentsKept, Lookup, Word, RolesKept, LostPages;
    Found(ram.mem, pg, v);
    var t := WalkPgdir(ram, pg, v, true);
    TableTaken(old(ram.own), ram.own, pg, Pdx(v), if t.Some? then t.value else 0);
    if t.None? {
      return NoTable;
    }
    ghost var mem1, own1 := ram.mem, ram.own;
    Found(ram.mem, pg, v);
    EntryThere(ram.mem, t.value, Ptx(v));
    if P(ram.mem[t.value][Ptx(v)]) {
      return Remap;
    }
    ram.mem := SetWord(ram.mem, t.value, Ptx(v), Pte(q, perm));
    ram.own := Given(ram.own, pg, v, q);
    PageMapped(mem1, own1, pg, v, t.value, q, perm, ram.mem, ram.own);
    ContentsTwice(old(ram.mem), old(ram.own), mem1, own1, ram.mem, pg);
    OthersTwice(old(ram.mem), old(ram.own), mem1, own1, ram.mem, ram.own, pg);
    RolesTwice(old(ram.own), own1, ram.own, pg);
    return Mapped;
  }

  /** mappages: maps the pages of [va, va+size) to consecutive pages from q on; without a page for a table
      it stops, with the first ones mapped, and at a page that is mapped already it panics. */
  method MapPages(ram: Memory, pg: nat, va: nat, size: nat, q: nat, perm: Perm) returns (r: MapResult, ghost done: nat)
    requires Valid(ram, pg) && size > 0 && va + size <= ALLPAGES * PGSIZE
    requires InHand(ram.own, pg, va / PGSIZE, q, (va + size - 1) / PGSIZE - va / PGSIZE + 1)
    modifies ram
    ensures Valid(ram, pg)
    ensures RunEnds(old(ram.mem), old(ram.own), old(ram.freelist), ram.mem, ram.own, ram.freelist,
                    pg, va / PGSIZE, (va + size - 1) / PGSIZE, q, perm, done, r)
  {
    hide Space, Pool, RunInv, InHand, Progress, OneEntry, RunEnds;
    var first, last := va / PGSIZE, (va + size - 1) / PGSIZE;
    RunStart(ram.mem, ram.own, ram.freelist, pg, first, last, q, perm);
    var v := first;
    r := Mapped;
    while r.Mapped? && v <= last
      invariant first <= v <= last + 1 && Valid(ram, pg) && (!r.Mapped? ==> v <= last)
      invariant RunInv(old(ram.mem), old(ram.own), old(ram.freelist), ram.mem, ram.own, ram.freelist, pg, first, last,
                       q, perm, v, r)
      decreases last - v, r.Mapped?
    {
      r := MapNext(ram, old(ram.mem), old(ram.own), old(ram.freelist), pg, first, last, q, perm, v);
      if r.Mapped? {
        v := v + 1;
      }
    }
    done := v - first;
    RunDone(old(ram.mem), old(ram.own), old(ram.freelist), ram.mem, ram.own, ram.freelist, pg, first, last, q, perm, v,
            r);
  }

  method MapNext(ram: Memory, ghost mem0: Mem, ghost own0: Owners, ghost free0: seq<nat>,
                 pg: nat, first: nat, last: nat, q: nat, perm: Perm, v: nat)
    returns (r: MapResult)
    requires Valid(ram, pg) && first <= v <= last < ALLPAGES
    requires RunInv(mem0, own0, free0, ram.mem, ram.own, ram.freelist, pg, first, last, q, perm, v, Mapped)
    modifies ram
    ensures Valid(ram, pg)
    ensures RunInv(mem0, own0, free0, ram.mem, ram.own, ram.freelist, pg, first, last, q, perm, if r.Mapped? then v + 1
                   else v, r)
  {
    hide Space, Pool, Lookup, Word, Pte, Progress, LostPages, OthersKept, ContentsKept, RolesKept, MapsRun, OneEntry,
         Unmapped;
    var p := q + (v - first);
    r := MapPage(ram, pg, v, p, perm);
    hide RunInv;
    if r.Mapped? {
      RunGoes(mem0, own0, free0, old(ram.mem), old(ram.own), old(ram.freelist), ram.mem, ram.own, ram.freelist, pg,
              first, last, q, perm, v, p);
    } else {
      RunStops(mem0, own0, free0, old(ram.mem), old(ram.own), old(ram.freelist), ram.mem, ram.own, ram.freelist, pg,
               first, last, q, perm, v, r);
    }
  }

  /** Frees the page at page number v, whose entry lies in table t. */
  method ClearPage(ram: Memory, pg: nat, v: nat, t: nat)
    requires Valid(ram, pg) && P(Word(ram.mem, pg, Pdx(v))) && t == Ppn(Word(ram.mem, pg, Pdx(v))) && t < |ram.mem|
    requires v < USERPAGES && P(Lookup(ram.mem, pg, v))
    modifies ram
    ensures Valid(ram, pg) && OthersKept(old(ram.mem), old(ram.own), ram.mem, ram.own, pg)
            && ContentsKept(old(ram.mem), ram.own, ram.mem, pg)
    ensures OwnsLess(old(ram.own), ram.own) && LostPages(ram.own, pg) == LostPages(old(ram.own), pg)
    ensures forall u: nat :: Lookup(ram.mem, pg, u) == if u == v then 0 else Lookup(old(ram.mem), pg, u)
    ensures forall j: nat :: Word(ram.mem, pg, j) == Word(old(ram.mem), pg, j)
  {
    hide OwnerOk, OthersKept;
    assert TableOk(ram.mem, ram.own, pg, Pdx(v));
    assert DataOk(ram.mem, ram.own, pg, v);
    var q := Ppn(ram.mem[t][Ptx(v)]);
    ram.Kfree(q);
    ram.mem := SetWord(ram.mem, t, Ptx(v), 0);
    PageUnmapped(old(ram.mem), old(ram.own), pg, v, t, q, ram.mem, ram.own);
  }

  /** deallocuvm: v jumps a whole table ahead where there is no table. */
  method DeallocUvm(ram: Memory, pg: nat, oldsz: nat, newsz: nat, ghost n: nat) returns (r: nat)
    requires Valid(ram, pg) && Contiguous(ram.mem, pg, n) && oldsz <= KERNBASE
    modifies ram
    ensures Valid(ram, pg) && OthersKept(old(ram.mem), old(ram.own), ram.mem, ram.own, pg)
            && ContentsKept(old(ram.mem), ram.own, ram.mem, pg)
    ensures OwnsLess(old(ram.own), ram.own) && LostPages(ram.own, pg) == LostPages(old(ram.own), pg)
    ensures r == if newsz >= oldsz then oldsz else newsz
    ensures newsz >= oldsz ==> ram.mem == old(ram.mem) && ram.freelist == old(ram.freelist) && ram.own == old(ram.own)
    ensures newsz < oldsz ==> Dropped(old(ram.mem), ram.mem, pg, n, Pages(newsz), Pages(oldsz))
  {
    hide Space, Pool, Lookup, Word;
    OthersNone(ram.mem, ram.freelist, ram.own, pg);
    if newsz >= oldsz {
      return oldsz;
    }
    ghost var first := Pages(newsz);
    var v := Pages(newsz);
    while v < Pages(oldsz)
      invariant first <= v && Valid(ram, pg) && LostPages(ram.own, pg) == LostPages(old(ram.own), pg)
      invariant OthersKept(old(ram.mem), old(ram.own), ram.mem, ram.own, pg)
      invariant ContentsKept(old(ram.mem), ram.own, ram.mem, pg) && OwnsLess(old(ram.own), ram.own)
      invariant Dropped(old(ram.mem), ram.mem, pg, n, first, if v < Pages(oldsz) then v else Pages(oldsz))
    {
      ghost var mem1, own1 := ram.mem, ram.own;
      Found(ram.mem, pg, v);
      var t := WalkPgdir(ram, pg, v, false);
      if t.None? {
        v := v + (ENTRIES - 1);
      } else if P(Word(ram.mem, t.value, Ptx(v))) {
        ClearPage(ram, pg, v, t.value);
        OthersTwice(old(ram.mem), old(ram.own), mem1, own1, ram.mem, ram.own, pg);
      }
      v := v + 1;
    }
    return newsz;
  }

  /** The body of the loops of allocuvm and copyuvm: a page is allocated, filled and mapped at v. */
  method AddPage(ram: Memory, pg: nat, v: nat, page: Page) returns (step: Step)
    requires Valid(ram, pg) && v < USERPAGES && !P(Lookup(ram.mem, pg, v)) && |page| == ENTRIES
    modifies ram
    ensures Valid(ram, pg)
            && Adds(old(ram.mem), old(ram.own), old(ram.freelist), ram.mem, ram.own, ram.freelist, pg, v, page, step)
  {
    hide Space, Lookup, Word, Pte, ContentsKept, RolesKept, OneEntry, RunEnds, SameMap, LostPages;
    var p := ram.Kalloc(Owner(pg, Lost));
    if p.None? {
      AddsNone(ram.mem, ram.own, ram.freelist, pg, v, page);
      return OutOfMemory;
    }
    ram.mem := ram.mem[p.value := page];
    PageTaken(old(ram.mem), old(ram.own), pg, p.value, page, ram.mem, ram.own);
    AddReady(old(ram.mem), ram.mem, ram.own, pg, v, p.value);
    ghost var mem1, own1, free1 := ram.mem, ram.own, ram.freelist;
    var r, done := MapPages(ram, pg, v * PGSIZE, PGSIZE, p.value, USERPERM);
    AddsUp(old(ram.mem), old(ram.own), old(ram.freelist), mem1, own1, free1, ram.mem, ram.own, ram.freelist, pg, v,
           page, p.value, r, done);
    return if r.Mapped? then Added(p.value) else Hole;
  }

  /** allocuvm. The size recorded afterwards is right EXACTLY WHEN the last page was not starved of its table. */
  method AllocUvm(ram: Memory, pg: nat, oldsz: nat, newsz: nat) returns (r: nat)
    requires Valid(ram, pg) && Contiguous(ram.mem, pg, Pages(oldsz))
    modifies ram
    ensures Valid(ram, pg)
    ensures newsz >= KERNBASE ==> r == 0 && ram.mem == old(ram.mem) && ram.own == old(ram.own)
                                  && ram.freelist == old(ram.freelist)
    ensures newsz < KERNBASE && newsz < oldsz ==> r == oldsz && ram.mem == old(ram.mem) && ram.own == old(ram.own)
                                                  && ram.freelist == old(ram.freelist)
    ensures oldsz <= newsz < KERNBASE ==>
              var first, end := Pages(oldsz), Pages(newsz);
              var plan := Plan(old(ram.mem), pg, first, first, end, |old(ram.freelist)|);
              && r == (if plan.Fits? || (end > 0 && plan == Starved(end - 1)) then newsz else 0)
              && Grows(old(ram.mem), old(ram.own), ram.mem, ram.own, pg, first, end, seq(end - first, _ => Zeros()),
                       plan)
              && (Contiguous(ram.mem, pg, Pages(if r == newsz then newsz else oldsz)) <==>
                  !(end > 0 && plan == Starved(end - 1)))
  {
    hide Space, Plan, Grows, Contiguous;
    if newsz >= KERNBASE {
      return 0;
    }
    if newsz < oldsz {
      return oldsz;
    }
    r := Grow(ram, pg, oldsz, newsz);
    SizeExact(old(ram.mem), old(ram.own), |old(ram.freelist)|, ram.mem, ram.own, pg, oldsz, newsz, r);
  }

  method Grow(ram: Memory, pg: nat, oldsz: nat, newsz: nat) returns (r: nat)
    requires Valid(ram, pg) && Contiguous(ram.mem, pg, Pages(oldsz)) && oldsz <= newsz < KERNBASE
    modifies ram
    ensures Valid(ram, pg)
    ensures var first, end := Pages(oldsz), Pages(newsz);
            var plan := Plan(old(ram.mem), pg, first, first, end, |old(ram.freelist)|);
            && r == (if plan.Fits? || (end > 0 && plan == Starved(end - 1)) then newsz else 0)
            && Grows(old(ram.mem), old(ram.own), ram.mem, ram.own, pg, first, end, seq(end - first, _ => Zeros()), plan)
  {
    hide Space, Lookup, Word, Plan, Growth, Grows, Contiguous, Adds, Dropped, ContentsKept, OthersKept, LostPages;
    var v := Pages(oldsz);
    ghost var first, end := Pages(oldsz), Pages(newsz);
    ghost var img := seq(end - first, _ => Zeros());
    ghost var plan := Plan(ram.mem, pg, first, first, end, |ram.freelist|);
    ghost var hole := false;
    GrowthStart(ram.mem, ram.own, ram.freelist, pg, first, end, img);
    while v < Pages(newsz)
      invariant first <= v <= end && Valid(ram, pg)
      invariant Growth(old(ram.mem), old(ram.own), ram.mem, ram.own, |ram.freelist|, pg, first, v, end, img, plan, hole)
    {
      ghost var mem1, own1, free1 := ram.mem, ram.own, ram.freelist;
      GrowthNext(old(ram.mem), old(ram.own), ram.mem, ram.own, ram.freelist, pg, first, v, end, img, plan, hole);
      var step := AddPage(ram, pg, v, Zeros());
      match step {
        case OutOfMemory =>
          NoMemory(mem1, own1, free1, ram.mem, ram.own, ram.freelist, pg, v, Zeros());
          ghost var m := if hole then v - 1 else v;
          GrowthContiguous(old(ram.mem), old(ram.own), ram.mem, ram.own, |ram.freelist|, pg, first, v, end, img, plan,
                           hole);
          var _ := DeallocUvm(ram, pg, newsz, oldsz, m);
          GrowthUndone(old(ram.mem), old(ram.own), mem1, own1, ram.mem, ram.own, pg, first, v, end, img, plan, hole);
          GrowsBack(old(ram.mem), old(ram.own), ram.mem, ram.own, pg, first, v, end, img, plan, hole);
          return 0;
        case Added(q) =>
          NotInHole(old(ram.mem), old(ram.own), mem1, own1, free1, ram.mem, ram.own, ram.freelist, pg, first, v, end,
                    img, plan, hole, Zeros(), step);
          GrowthAdded(old(ram.mem), old(ram.own), mem1, own1, free1, ram.mem, ram.own, ram.freelist, pg, first, v, end,
                      img, plan, q);
        case Hole =>
          NotInHole(old(ram.mem), old(ram.own), mem1, own1, free1, ram.mem, ram.own, ram.freelist, pg, first, v, end,
                    img, plan, hole, Zeros(), step);
          GrowthHole(old(ram.mem), old(ram.own), mem1, own1, free1, ram.mem, ram.own, ram.freelist, pg, first, v, end,
                     img, plan);
          hole := true;
      }
      v := v + 1;
    }
    GrowthDone(old(ram.mem), old(ram.own), ram.mem, ram.own, |ram.freelist|, pg, first, end, img, plan, hole);
    return newsz;
  }

  /** freevm: every page of the address space, its tables and its directory becomes free. */
  method FreeVm(ram: Memory, pg: nat, ghost n: nat)
    requires Valid(ram, pg) && Contiguous(ram.mem, pg, n) && n <= USERPAGES
    modifies ram
    ensures Pool(ram.mem, ram.freelist, ram.own) && OthersKept(old(ram.mem), old(ram.own), ram.mem, ram.own, pg)
    ensures LostPages(ram.own, pg) == LostPages(old(ram.own), pg)
    ensures forall p: nat :: p in ram.own && ram.own[p].space == pg ==> ram.own[p].role.Lost?
  {
    hide Space, Lookup, Word, OthersKept, LostPages, Emptying, Junk;
    var _ := DeallocUvm(ram, pg, KERNBASE, 0, n);
    AllDropped(old(ram.mem), ram.mem, pg, n);
    ghost var mem1, own1 := ram.mem, ram.own;
    EmptyingStart(ram.mem, ram.freelist, ram.own, pg);
    var i := 0;
    while i < ENTRIES
      invariant 0 <= i <= ENTRIES && Pool(ram.mem, ram.freelist, ram.own)
      invariant Emptying(mem1, own1, ram.mem, ram.own, pg, i)
    {
      EmptyingEntry(mem1, own1, ram.mem, ram.own, ram.freelist, pg, i);
      var pde := ram.mem[pg][i];
      ghost var mem2, own2 := ram.mem, ram.own;
      if P(pde) {
        ram.Kfree(Ppn(pde));
      }
      EmptyingStep(mem1, own1, mem2, own2, ram.mem, ram.own, pg, i, i + 1, Ppn(pde));
      i := i + 1;
    }
    ghost var mem2, own2 := ram.mem, ram.own;
    EmptyingEnd(mem1, own1, ram.mem, ram.own, ram.freelist, pg);
    ram.Kfree(pg);
    DirectoryFreed(mem1, own1, mem2, own2, ram.mem, ram.own, pg);
    OthersTwice(old(ram.mem), old(ram.own), mem1, own1, ram.mem, ram.own, pg);
  }

  /** setupkvm: a directory with the kernel's half. It takes 65 pages, and with fewer it loses all there are. */
  method SetupKvm(ram: Memory, data: nat) returns (r: Option<nat>)
    requires Pool(ram.mem, ram.freelist, ram.own) && Alive(ram.own) && Linked(data)
    modifies ram
    ensures Pool(ram.mem, ram.freelist, ram.own) && Alive(ram.own) && (r.Some? <==> |old(ram.freelist)| >= KERNPAGES)
    ensures r.Some? ==> r.value !in old(ram.own) && |ram.freelist| == |old(ram.freelist)| - KERNPAGES
    ensures r.Some? ==> Space(ram.mem, ram.own, r.value) && Contiguous(ram.mem, r.value, 0)
                        && KernelHalf(ram.mem, r.value, data)
    ensures r.Some? ==> OthersKept(old(ram.mem), old(ram.own), ram.mem, ram.own, r.value)
    ensures r.Some? ==> LostPages(ram.own, r.value) == LostPages(old(ram.own), r.value)
    ensures r.Some? ==> forall j: nat :: j < USERTABLES ==> !P(Word(ram.mem, r.value, j))
    ensures r.None? ==> ram.freelist == []
                        && exists d: nat :: Loses(old(ram.mem), old(ram.freelist), old(ram.own), ram.mem, ram.own, d)
  {
    hide Space, Lookup, Word, OthersKept, LostPages, Alive, Contiguous, KernelStage, RunEnds, Linked, Pte, InHand,
         KernelMap, Forget, LoseAll;
    if ram.freelist == [] {
      LosesNone(ram.mem, ram.own);
      return None;
    }
    ghost var next := ram.freelist[0];
    r := ram.Kalloc(Owner(next, Dir));
    var d := r.value;
    ram.mem := ram.mem[d := Zeros()];
    StageStart(old(ram.mem), old(ram.own), |old(ram.freelist)|, d, data, ram.mem, ram.own);
    var kmap := KernelMap(data);
    var k := 0;
    while k < |kmap|
      invariant 0 <= k <= 4 && Valid(ram, d)
      invariant KernelStage(old(ram.mem), old(ram.own), |old(ram.freelist)|, ram.mem, ram.own, |ram.freelist|, d, data,
                            k)
    {
      ghost var mem1, own1, free1 := ram.mem, ram.own, ram.freelist;
      var row := kmap[k];
      RowPages(data, k);
      ghost var first, last := row.virt / PGSIZE, (row.virt + row.Size() - 1) / PGSIZE;
      KernelInHand(ram.own, d, first, row.physStart / PGSIZE, last - first + 1);
      var end, done := MapPages(ram, d, row.virt, row.Size(), row.physStart / PGSIZE, row.perm);
      StageFresh(old(ram.mem), old(ram.own), |old(ram.freelist)|, mem1, own1, free1, ram.mem, ram.own, ram.freelist, d,
                 data, k, first, last,
                 row.physStart / PGSIZE, row.perm, done, end);
      if end.NoTable? {
        StageStops(old(ram.mem), old(ram.own), |old(ram.freelist)|, mem1, own1, free1, ram.mem, ram.own, ram.freelist,
                   d, data, k, first, last, done);
        ghost var own2 := ram.own;
        ram.own := Forget(ram.own, d);
        Forgotten(old(ram.mem), old(ram.freelist), old(ram.own), ram.mem, own2, d, ram.own);
        assert Loses(old(ram.mem), old(ram.freelist), old(ram.own), ram.mem, ram.own, d);
        return None;
      }
      StageNext(old(ram.mem), old(ram.own), |old(ram.freelist)|, mem1, own1, free1, ram.mem, ram.own, ram.freelist, d,
                data, k, first, last, done);
      k := k + 1;
    }
    HasDirectory(ram.mem, ram.own, d);
    StageEnd(old(ram.mem), old(ram.own), |old(ram.freelist)|, ram.mem, ram.own, |ram.freelist|, d, data);
  }

  /** Reads the page mapped at v, which must be present. */
  method ReadPage(ram: Memory, pg: nat, v: nat) returns (page: Page)
    requires Valid(ram, pg) && v < USERPAGES && P(Lookup(ram.mem, pg, v))
    modifies ram
    ensures ram.mem == old(ram.mem) && ram.own == old(ram.own) && ram.freelist == old(ram.freelist)
    ensures page == PageAt(ram.mem, Ppn(Lookup(ram.mem, pg, v))) && |page| == ENTRIES
  {
    hide OwnerOk, OthersKept, ContentsKept;
    Found(ram.mem, pg, v);
    assert DataOk(ram.mem, ram.own, pg, v);
    var t := WalkPgdir(ram, pg, v, false);
    var pte := ram.mem[t.value][Ptx(v)];
    page := ram.mem[Ppn(pte)];
  }

  /** copyuvm: the child gets its ram.own copy of every page, always writable by the user, and the kernel's half.
      It succeeds exactly when the pages suffice; if not it leaves nothing behind when it ran out of pages, one
      page when it ran out of a table, and ALL THE FREE PAGES when there were too few for setupkvm. */
  method CopyUvm(ram: Memory, pg: nat, sz: nat, data: nat) returns (child: Option<nat>)
    requires Valid(ram, pg) && Alive(ram.own) && Contiguous(ram.mem, pg, Pages(sz)) && sz <= KERNBASE && Linked(data)
    modifies ram
    ensures Valid(ram, pg) && Alive(ram.own) && AllKept(old(ram.mem), old(ram.own), ram.mem, ram.own)
    ensures Contiguous(ram.mem, pg, Pages(sz)) && Kept(old(ram.mem), ram.mem, pg, Pages(sz))
    ensures child.Some? <==> CopyPlan(Pages(sz), |old(ram.freelist)|) == Copied
    ensures child.Some? ==> child.value !in old(ram.own) && Space(ram.mem, ram.own, child.value)
    ensures child.Some? ==> Contiguous(ram.mem, child.value, Pages(sz)) && KernelHalf(ram.mem, child.value, data)
    ensures child.Some? ==> Filled(ram.mem, child.value, 0, Pages(sz), Image(old(ram.mem), pg, Pages(sz)))
    ensures CopyPlan(Pages(sz), |old(ram.freelist)|) == LosesNothing ==> ram.own == old(ram.own)
    ensures CopyPlan(Pages(sz), |old(ram.freelist)|) == LosesOne ==>
              exists q: nat, d: nat :: q !in old(ram.own) && ram.own == old(ram.own)[q := Owner(d, Lost)]
    ensures CopyPlan(Pages(sz), |old(ram.freelist)|) == LosesEverything ==>
              ram.freelist == [] && exists d: nat :: ram.own == LoseAll(old(ram.own), old(ram.freelist), d)
  {
    hide Space, Lookup, Word, Plan, Growth, Contiguous, Adds, Kept, Filled, OthersKept, LostPages, Alive, AllKept,
         Image, KernelSame, KernelHalf, Linked, LoseAll;
    ghost var n := Pages(sz);
    ghost var img := Image(ram.mem, pg, n);
    child := SetupKvm(ram, data);
    if child.None? {
      ghost var e: nat :| Loses(old(ram.mem), old(ram.freelist), old(ram.own), ram.mem, ram.own, e);
      ParentLives(old(ram.mem), old(ram.freelist), old(ram.own), ram.mem, ram.own, e, pg, n);
      return;
    }
    ghost var plan := FreshPlan(n, |ram.freelist|);
    var d := child.value;
    ghost var mem1, own1 := ram.mem, ram.own;
    NewSpaceStays(old(ram.mem), old(ram.own), ram.mem, ram.own, d, pg, n);
    PlanFresh(ram.mem, d, 0, n, |ram.freelist|);
    GrowthStart(ram.mem, ram.own, ram.freelist, d, 0, n, img);
    var v := 0;
    while v < Pages(sz)
      invariant 0 <= v <= n && Valid(ram, d)
      invariant Growth(mem1, own1, ram.mem, ram.own, |ram.freelist|, d, 0, v, n, img, plan, false)
    {
      ParentStays(old(ram.mem), mem1, own1, ram.mem, ram.own, |ram.freelist|, d, pg, v, n, plan, false);
      var page := ReadPage(ram, pg, v);
      GrowthNext(mem1, own1, ram.mem, ram.own, ram.freelist, d, 0, v, n, img, plan, false);
      ghost var mem2, own2, free2 := ram.mem, ram.own, ram.freelist;
      var step := AddPage(ram, d, v, page);
      if !step.Added? {
        CopyStops(mem1, own1, mem2, own2, free2, ram.mem, ram.own, ram.freelist, d, v, n, img, plan, step);
        ghost var mem3, own3 := ram.mem, ram.own;
        FreeVm(ram, d, v);
        CopyAbandoned(old(ram.mem), old(ram.own), mem1, own1, mem3, own3, ram.mem, ram.own, d, pg, n, plan);
        return None;
      }
      GrowthAdded(mem1, own1, mem2, own2, free2, ram.mem, ram.own, ram.freelist, d, 0, v, n, img, plan, step.q);
      v := v + 1;
    }
    ParentStays(old(ram.mem), mem1, own1, ram.mem, ram.own, |ram.freelist|, d, pg, v, n, plan, false);
    assert d in ram.own && ram.own[d] == Owner(d, Dir) by { HasDirectory(ram.mem, ram.own, d); }
    CopyDone(old(ram.mem), old(ram.own), mem1, own1, ram.mem, ram.own, |ram.freelist|, d, n, img, plan);
    KernelHalfStays(mem1, ram.mem, d, data);
  }
}
