/** The page allocator of xv6/kalloc.c: physical memory as untyped pages of words, and who owns each page. */
module Kalloc {
  import opened Prelude

  const ENTRIES := 1024        // NPDENTRIES, NPTENTRIES
  const PGSIZE := 4096

  type Page = seq<nat>

  function Zeros(): (p: Page)
    ensures |p| == ENTRIES && forall i :: 0 <= i < ENTRIES ==> p[i] == 0
  {
    seq(ENTRIES, _ => 0)
  }

  function Junk(): (p: Page)
    ensures |p| == ENTRIES
  {
    seq(ENTRIES, _ => 0x0101_0101)
  }

  type Mem = seq<Page>

  ghost predicate Shape(mem: Mem) {
    forall p :: 0 <= p < |mem| ==> |mem[p]| == ENTRIES
  }

  /** What a page that is not free is for; Lost is a page that was allocated but is in no table. */
  datatype Role = Dir | Table(i: nat) | Data(v: nat) | Lost

  datatype Owner = Owner(space: nat, role: Role)

  type Owners = map<nat, Owner>

  ghost predicate NoDups(s: seq<nat>) {
    forall i, j :: 0 <= i < j < |s| ==> s[i] != s[j]
  }

  ghost predicate Sound(mem: Mem, own: Owners) {
    Shape(mem) && forall p: nat :: p in own ==> 0 < p < |mem|
  }

  /** Page 0 aside, every page is on the free list, once, or owned. */
  ghost predicate Pool(mem: Mem, freelist: seq<nat>, own: Owners) {
    && Sound(mem, own) && NoDups(freelist)
    && (forall p: nat :: p in freelist <==> 0 < p < |mem| && p !in own)
  }

  class Memory {
    var mem: Mem
    var freelist: seq<nat>
    ghost var own: Owners

    method Kalloc(ghost owner: Owner) returns (p: Option<nat>)
      requires Pool(mem, freelist, own)
      modifies this`freelist, this`own
      ensures Pool(mem, freelist, own)
      ensures p.None? <==> old(freelist) == []
      ensures p.None? ==> freelist == old(freelist) && own == old(own)
      ensures p.Some? ==> p.value == old(freelist)[0] && p.value !in old(own) && 0 < p.value < |mem|
      ensures p.Some? ==> freelist == old(freelist)[1..] && own == old(own)[p.value := owner]
    {
      if freelist == [] {
        return None;
      }
      p := Some(freelist[0]);
      assert forall q: nat :: q in freelist <==> q == freelist[0] || q in freelist[1..];
      freelist := freelist[1..];
      own := own[p.value := owner];
    }

    method Kfree(p: nat)
      requires Pool(mem, freelist, own) && p in own
      modifies this
      ensures Pool(mem, freelist, own)
      ensures p < |old(mem)| && mem == old(mem)[p := Junk()] && freelist == [p] + old(freelist) && own == old(own) - {p}
    {
      mem := mem[p := Junk()];
      assert forall q: nat :: q in [p] + freelist <==> q == p || q in freelist;
      freelist := [p] + freelist;
      own := own - {p};
    }
  }
}
