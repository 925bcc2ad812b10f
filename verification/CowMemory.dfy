/**
 Placing the private areas of a task, fresh or taken over from its parent (criu/mem.c).

 A process is its page table: page number -> what is mapped there. Addresses count pages.
 */
module CowMemory {
  import opened CowLinks

  /** The bytes of a page; they are only copied and compared. */
  datatype Page = Zero | Data(id: nat)

  /** What an untouched page reads as: zeroes, or a page of a file. */
  datatype Backing = Anon | FilePage(file: nat, off: nat)

  datatype Cell = Reserved | Mapped(backing: Backing, page: Page)

  type Memory = map<nat, Cell>

  type Files = (nat, nat) -> Page

  function Default(files: Files, b: Backing): Page {
    match b
    case Anon => Zero
    case FilePage(f, o) => files(f, o)
  }

  function Len(v: Vma): nat { if v.start <= v.end then v.end - v.start else 0 }

  /** The backing mmap gives to page off of an area. */
  function BackingOf(v: Vma, off: nat): Backing {
    if v.anonymous || v.aioRing then Anon else FilePage(v.file, v.pgoff + off)
  }

  function Untouched(files: Files, b: Backing): Cell { Mapped(b, Default(files, b)) }

  /** What the restore keeps per area: VMA_PREMMAPED, premmaped_addr, page_bitmap and VMA_NO_PROT_WRITE. */
  datatype Area = Area(premapped: bool, addr: nat, bits: seq<bool>, noWrite: bool)

  /** A pagemap entry with the pages it lists. */
  datatype PageEntry = PageEntry(vaddr: nat, pages: seq<Page>, lazy: bool)

  function End(e: PageEntry): nat { e.vaddr + |e.pages| }

  ghost predicate Ascending(pm: seq<PageEntry>) {
    forall k, l :: 0 <= k < l < |pm| ==> End(pm[k]) <= pm[l].vaddr
  }

  /** No entry lists a page of the area. */
  ghost predicate NoPages(pm: seq<PageEntry>, v: Vma) {
    forall k :: 0 <= k < |pm| ==> End(pm[k]) <= v.start || v.end <= pm[k].vaddr
  }

  /** The n pages from at on. */
  function Range(at: nat, n: nat): (r: set<nat>)
    ensures forall x :: x in r <==> at <= x < at + n
  {
    if n == 0 then {} else Range(at, n - 1) + {at + n - 1}
  }

  /** mmap(at, MAP_FIXED) of a private area */
  function Mmap(files: Files, mem: Memory, at: nat, v: Vma): Memory {
    mem + map x: nat | x in Range(at, Len(v)) :: Untouched(files, BackingOf(v, x - at))
  }

  /** mremap(from, n, n, MREMAP_FIXED | MREMAP_MAYMOVE, at) */
  function Mremap(mem: Memory, from: nat, n: nat, at: nat): Memory
    requires forall x :: from <= x < from + n ==> x in mem
  {
    mem - Range(from, n) + map x: nat | x in Range(at, n) :: mem[x - at + from]
  }

  ghost predicate MapsRange(mem: Memory, addr: nat, n: nat) {
    forall x :: addr <= x < addr + n ==> x in mem && mem[x].Mapped?
  }

  /** The areas lie one after the other. */
  ghost predicate Packed(vmas: seq<Vma>, areas: seq<Area>)
    requires |areas| <= |vmas|
  {
    forall i, j :: 0 <= i < j < |areas| && areas[i].premapped && areas[j].premapped ==>
      areas[i].addr + Len(vmas[i]) <= areas[j].addr
  }

  /** The areas of a restored task, as its children find them. */
  ghost predicate LaidOut(vmas: seq<Vma>, areas: seq<Area>, mem: Memory) {
    && |areas| == |vmas| && Packed(vmas, areas)
    && forall i :: 0 <= i < |areas| && areas[i].premapped ==>
         |areas[i].bits| == Len(vmas[i]) && MapsRange(mem, areas[i].addr, Len(vmas[i]))
  }

  /** The links of a task lead to areas its parent has premapped, each to another one. */
  ghost predicate LinksTo(vmas: seq<Vma>, links: seq<Link>, pvmas: seq<Vma>, pareas: seq<Area>, taskSize: nat) {
    && |links| == |vmas| && |pareas| == |pvmas|
    && (forall i {:trigger links[i]} :: 0 <= i < |links| && links[i].Parent? ==>
         && links[i].index < |pareas| && pareas[links[i].index].premapped
         && CowPair(vmas[i], pvmas[links[i].index], taskSize))
    && forall i, k :: 0 <= i < k < |links| && links[i].Parent? ==> links[i] != links[k]
  }

  /** vma_force_premap */
  predicate ForcePremap(vmas: seq<Vma>, i: nat)
    requires i < |vmas|
  {
    vmas[i].growsDown && i > 0 && vmas[i - 1].end == vmas[i].start
  }

  /** The areas that are restored through a premapped copy and not in place by the restorer. */
  predicate NeedsPremap(vmas: seq<Vma>, links: seq<Link>, pieok: bool, taskSize: nat, i: nat)
    requires i < |vmas| == |links|
  {
    Private(vmas[i], taskSize) && !(links[i] == NoLink && pieok && !ForcePremap(vmas, i))
  }

  /** The private pages of the first n areas. */
  function PrivatePages(vmas: seq<Vma>, taskSize: nat, n: nat): nat
    requires n <= |vmas|
  {
    if n == 0 then 0
    else PrivatePages(vmas, taskSize, n - 1) + if Private(vmas[n - 1], taskSize) then Len(vmas[n - 1]) else 0
  }

  /** rst_priv_size */
  function PrivateSize(vmas: seq<Vma>, taskSize: nat): nat { PrivatePages(vmas, taskSize, |vmas|) }

  lemma {:induction false} PrivatePagesGrow(vmas: seq<Vma>, taskSize: nat, i: nat, n: nat)
    requires i <= n <= |vmas|
    ensures PrivatePages(vmas, taskSize, i) <= PrivatePages(vmas, taskSize, n)
  {
    if i < n { PrivatePagesGrow(vmas, taskSize, i, n - 1); }
  }

  /** Page x of the address space as it must be right after area i was placed. */
  ghost predicate PlacedPage(files: Files, v: Vma, link: Link, pareas: seq<Area>, mem0: Memory, a: Area, mem: Memory, off: nat) {
    && a.addr + off in mem
    && (link.Parent? ==> link.index < |pareas| && pareas[link.index].addr + off in mem0
                         && mem[a.addr + off] == mem0[pareas[link.index].addr + off])
    && (!link.Parent? ==> mem[a.addr + off] == Untouched(files, BackingOf(v, off)))
  }

  /** A premapped area holds the parent's pages, or untouched ones, and has an empty bitmap. */
  ghost predicate Placed(files: Files, v: Vma, link: Link, pareas: seq<Area>, mem0: Memory, a: Area, mem: Memory) {
    && |a.bits| == Len(v) && (forall off :: 0 <= off < Len(v) ==> !a.bits[off])
    && forall off {:trigger PlacedPage(files, v, link, pareas, mem0, a, mem, off)} ::
         0 <= off < Len(v) ==> PlacedPage(files, v, link, pareas, mem0, a, mem, off)
  }

  /** The pages area i will be taken over from are still where the parent left them. */
  ghost predicate SourceKept(v: Vma, link: Link, pareas: seq<Area>, mem0: Memory, mem: Memory) {
    link.Parent? && link.index < |pareas| ==>
      forall x :: pareas[link.index].addr <= x < pareas[link.index].addr + Len(v) ==>
        x in mem0 && x in mem && mem[x] == mem0[x]
  }

  /** The pages from at up to to are reserved and still free to be mapped over. */
  ghost predicate Free(mem: Memory, at: nat, to: nat) {
    forall x :: at <= x < to ==> x in mem && mem[x] == Reserved
  }

  /** premap_private_vma */
  function PremapPrivateVma(files: Files, v: Vma, link: Link, pareas: seq<Area>, mem: Memory, at: nat): (Area, Memory)
    requires link.Parent? ==> link.index < |pareas|
    requires link.Parent? ==> forall x :: pareas[link.index].addr <= x < pareas[link.index].addr + Len(v) ==> x in mem
  {
    (Area(true, at, seq(Len(v), _ => false), false),
     if !link.Parent? then Mmap(files, mem, at, v) else Mremap(mem, pareas[link.index].addr, Len(v), at))
  }

  lemma PlaceOne(files: Files, v: Vma, link: Link, pareas: seq<Area>, mem0: Memory, mem: Memory, at: nat, a: Area, mem': Memory)
    requires link.Parent? ==> link.index < |pareas|
    requires SourceKept(v, link, pareas, mem0, mem)
    requires (a, mem') == PremapPrivateVma(files, v, link, pareas, mem, at)
    ensures Placed(files, v, link, pareas, mem0, a, mem')
  {
    forall off | 0 <= off < Len(v) ensures PlacedPage(files, v, link, pareas, mem0, a, mem', off) {
      var x := at + off;
      assert x - at == off;
    }
  }

  /** Where placing an area changes nothing. */
  lemma PlaceFrame(files: Files, v: Vma, link: Link, pareas: seq<Area>, mem: Memory, at: nat, mem': Memory, x: nat)
    requires link.Parent? ==> link.index < |pareas|
    requires link.Parent? ==> forall x :: pareas[link.index].addr <= x < pareas[link.index].addr + Len(v) ==> x in mem
    requires mem' == PremapPrivateVma(files, v, link, pareas, mem, at).1
    requires !(at <= x < at + Len(v))
    requires link.Parent? ==> !(pareas[link.index].addr <= x < pareas[link.index].addr + Len(v))
    requires x in mem
    ensures x in mem' && mem'[x] == mem[x]
  {
  }

  /** The look-ahead that decides VMA_NO_PROT_WRITE; the entry looked at stays the last one when there are no more. */
  method LookAhead(pm: seq<PageEntry>, c0: nat, v: Vma) returns (c: nat, noWrite: bool)
    requires c0 < |pm|
    ensures c0 <= c < |pm|
    ensures forall k :: c0 <= k < c ==> End(pm[k]) <= v.start
    ensures End(pm[c]) > v.start || c == |pm| - 1
    ensures noWrite <==> End(pm[c]) > v.start && v.end < pm[c].vaddr
  {
    c := c0;
    while true
      invariant c0 <= c < |pm|
      invariant forall k :: c0 <= k < c ==> End(pm[k]) <= v.start
      decreases |pm| - c
    {
      if End(pm[c]) > v.start {
        return c, pm[c].vaddr > v.end;
      }
      if c + 1 >= |pm| {
        return c, false;
      }
      c := c + 1;
    }
  }

  /** Everything before the entry looked at ends below the area, so an entry beyond the area leaves none inside it. */
  lemma NoPagesInside(pm: seq<PageEntry>, c: nat, v: Vma)
    requires Ascending(pm) && c < |pm| && (forall k :: 0 <= k < c ==> End(pm[k]) <= v.start) && v.end < pm[c].vaddr
    ensures NoPages(pm, v)
  {
    forall k | c < k < |pm| ensures v.end <= pm[k].vaddr { assert End(pm[c]) <= pm[k].vaddr; }
  }

  /** The areas placed so far. */
  ghost predicate Progress(files: Files, vmas: seq<Vma>, links: seq<Link>, pareas: seq<Area>, mem0: Memory,
                           areas: seq<Area>, mem: Memory, base: nat, at: nat, to: nat)
    requires |links| == |vmas|
  {
    && |areas| <= |vmas| && base <= at <= to
    && Packed(vmas, areas)
    && (forall i {:trigger areas[i]} :: 0 <= i < |areas| && areas[i].premapped ==>
          && base <= areas[i].addr && areas[i].addr + Len(vmas[i]) <= at
          && Placed(files, vmas[i], links[i], pareas, mem0, areas[i], mem))
    && (forall i {:trigger vmas[i]} :: |areas| <= i < |vmas| ==> SourceKept(vmas[i], links[i], pareas, mem0, mem))
    && Free(mem, at, to)
  }

  /** The parent's pages lie outside the range just reserved. */
  ghost predicate SourcesOutside(vmas: seq<Vma>, links: seq<Link>, pareas: seq<Area>, mem0: Memory, base: nat, to: nat)
    requires |links| == |vmas|
  {
    forall i {:trigger links[i]} :: 0 <= i < |links| && links[i].Parent? ==>
      && links[i].index < |pareas|
      && (pareas[links[i].index].addr + Len(vmas[i]) <= base || to <= pareas[links[i].index].addr)
  }

  ghost predicate SourcesApart(vmas: seq<Vma>, links: seq<Link>, pareas: seq<Area>)
    requires |links| == |vmas|
  {
    forall i, k {:trigger links[i], links[k]} ::
      0 <= i < |links| && 0 <= k < |links| && i != k && links[i].Parent? && links[k].Parent?
      && links[i].index < |pareas| && links[k].index < |pareas| ==>
        var p, q := pareas[links[i].index].addr, pareas[links[k].index].addr;
        p + Len(vmas[i]) <= q || q + Len(vmas[k]) <= p
  }

  lemma PlaceNext(files: Files, vmas: seq<Vma>, links: seq<Link>, pareas: seq<Area>, mem0: Memory,
                  areas: seq<Area>, mem: Memory, base: nat, at: nat, to: nat, a: Area, mem': Memory)
    requires |links| == |vmas| && Progress(files, vmas, links, pareas, mem0, areas, mem, base, at, to)
    requires SourcesOutside(vmas, links, pareas, mem0, base, to) && SourcesApart(vmas, links, pareas)
    requires var i := |areas|; i < |vmas| && at + Len(vmas[i]) <= to
    requires (a, mem') == PremapPrivateVma(files, vmas[|areas|], links[|areas|], pareas, mem, at)
    ensures Progress(files, vmas, links, pareas, mem0, areas + [a], mem', base, at + Len(vmas[|areas|]), to)
  {
    var i, n := |areas|, at + Len(vmas[|areas|]);
    var v, link := vmas[i], links[i];
    PlaceOne(files, v, link, pareas, mem0, mem, at, a, mem');
    forall k | 0 <= k < i && areas[k].premapped ensures Placed(files, vmas[k], links[k], pareas, mem0, areas[k], mem') {
      forall off | 0 <= off < Len(vmas[k]) ensures PlacedPage(files, vmas[k], links[k], pareas, mem0, areas[k], mem', off) {
        assert PlacedPage(files, vmas[k], links[k], pareas, mem0, areas[k], mem, off);
        PlaceFrame(files, v, link, pareas, mem, at, mem', areas[k].addr + off);
      }
    }
    forall k | i < k < |vmas| ensures SourceKept(vmas[k], links[k], pareas, mem0, mem') {
      if links[k].Parent? && links[k].index < |pareas| {
        var from := pareas[links[k].index].addr;
        assert SourceKept(vmas[k], links[k], pareas, mem0, mem);
        forall x | from <= x < from + Len(vmas[k]) ensures x in mem0 && x in mem' && mem'[x] == mem0[x] {
          PlaceFrame(files, v, link, pareas, mem, at, mem', x);
        }
      }
    }
    forall x | n <= x < to ensures x in mem' && mem'[x] == Reserved {
      PlaceFrame(files, v, link, pareas, mem, at, mem', x);
    }
  }

  ghost predicate NonEmpty(vmas: seq<Vma>) {
    forall i :: 0 <= i < |vmas| ==> vmas[i].start < vmas[i].end
  }

  ghost predicate StartsAscend(vmas: seq<Vma>, n: nat)
    requires n <= |vmas|
  {
    forall i :: 0 < i < n ==> vmas[i - 1].start <= vmas[i].start
  }

  lemma MappedIsNotFree(mem: Memory, p: nat, n: nat, base: nat, to: nat)
    requires MapsRange(mem, p, n) && Free(mem, base, to) && n > 0 && base < to
    ensures p + n <= base || to <= p
  {
    var x := if p <= base then base else p;
    var c := if x in mem then mem[x] else Reserved;
  }

  /** What the parent has mapped does not meet the reserved range, and two areas take over different pages. */
  lemma Sources(vmas: seq<Vma>, links: seq<Link>, pvmas: seq<Vma>, pareas: seq<Area>, mem0: Memory, base: nat, taskSize: nat)
    requires LinksTo(vmas, links, pvmas, pareas, taskSize) && LaidOut(pvmas, pareas, mem0) && NonEmpty(vmas)
    requires Free(mem0, base, base + PrivateSize(vmas, taskSize))
    ensures SourcesOutside(vmas, links, pareas, mem0, base, base + PrivateSize(vmas, taskSize))
    ensures SourcesApart(vmas, links, pareas)
    ensures forall i {:trigger vmas[i]} :: 0 <= i < |vmas| ==> SourceKept(vmas[i], links[i], pareas, mem0, mem0)
  {
    var to := base + PrivateSize(vmas, taskSize);
    forall i | 0 <= i < |links| && links[i].Parent?
      ensures pareas[links[i].index].addr + Len(vmas[i]) <= base || to <= pareas[links[i].index].addr
    {
      PrivatePagesGrow(vmas, taskSize, i + 1, |vmas|);
      MappedIsNotFree(mem0, pareas[links[i].index].addr, Len(vmas[i]), base, to);
    }
  }

  /** The right areas are premapped, and VMA_NO_PROT_WRITE is only put on an area that gets no page. */
  ghost predicate Chosen(taskSize: nat, vmas: seq<Vma>, links: seq<Link>, pieok: bool, pm: seq<PageEntry>, areas: seq<Area>)
    requires |areas| <= |vmas| == |links|
  {
    forall i {:trigger areas[i]} :: 0 <= i < |areas| ==>
      && (areas[i].premapped <==> NeedsPremap(vmas, links, pieok, taskSize, i))
      && (Ascending(pm) && areas[i].noWrite ==> NoPages(pm, vmas[i]))
  }

  lemma ChooseNext(taskSize: nat, vmas: seq<Vma>, links: seq<Link>, pieok: bool, pm: seq<PageEntry>, areas: seq<Area>, a: Area)
    requires |areas| < |vmas| == |links| && Chosen(taskSize, vmas, links, pieok, pm, areas)
    requires a.premapped <==> NeedsPremap(vmas, links, pieok, taskSize, |areas|)
    requires Ascending(pm) && a.noWrite ==> NoPages(pm, vmas[|areas|])
    ensures Chosen(taskSize, vmas, links, pieok, pm, areas + [a])
  {
  }

  lemma SkipNext(files: Files, vmas: seq<Vma>, links: seq<Link>, pareas: seq<Area>, mem0: Memory,
                 areas: seq<Area>, mem: Memory, base: nat, at: nat, to: nat, a: Area)
    requires |links| == |vmas| && Progress(files, vmas, links, pareas, mem0, areas, mem, base, at, to)
    requires |areas| < |vmas| && !a.premapped
    ensures Progress(files, vmas, links, pareas, mem0, areas + [a], mem, base, at, to)
  {
  }

  /** The loop body of premap_priv_vmas: one more area is placed, or left to the restorer. */
  method PremapNext(files: Files, taskSize: nat, vmas: seq<Vma>, links: seq<Link>, pareas: seq<Area>,
                    ghost mem0: Memory, areas0: seq<Area>, mem: Memory, ghost base: nat, at: nat, ghost to: nat,
                    pm: seq<PageEntry>, c: nat, pieok: bool)
    returns (areas: seq<Area>, mem': Memory, at': nat, c': nat)
    requires |areas0| < |vmas| == |links| && to == base + PrivateSize(vmas, taskSize)
    requires SourcesOutside(vmas, links, pareas, mem0, base, to) && SourcesApart(vmas, links, pareas)
    requires Progress(files, vmas, links, pareas, mem0, areas0, mem, base, at, to)
    requires Chosen(taskSize, vmas, links, pieok, pm, areas0) && at <= base + PrivatePages(vmas, taskSize, |areas0|)
    requires pieok ==> c < |pm| && forall k :: 0 <= k < c ==> End(pm[k]) <= vmas[|areas0|].start
    ensures |areas| == |areas0| + 1
    ensures Progress(files, vmas, links, pareas, mem0, areas, mem', base, at', to)
    ensures Chosen(taskSize, vmas, links, pieok, pm, areas) && at' <= base + PrivatePages(vmas, taskSize, |areas|)
    ensures pieok ==> c' < |pm| && forall k :: 0 <= k < c' ==> End(pm[k]) <= vmas[|areas0|].start
  {
    var i := |areas0|;
    PrivatePagesGrow(vmas, taskSize, i + 1, |vmas|);
    var a := Area(false, 0, [], false);
    mem', at', c' := mem, at, c;
    if NeedsPremap(vmas, links, pieok, taskSize, i) {
      var placed := PremapPrivateVma(files, vmas[i], links[i], pareas, mem, at);
      PlaceNext(files, vmas, links, pareas, mem0, areas0, mem, base, at, to, placed.0, placed.1);
      a, mem', at' := placed.0, placed.1, at + Len(vmas[i]);
    } else {
      if Private(vmas[i], taskSize) {
        var noWrite;
        c', noWrite := LookAhead(pm, c, vmas[i]);
        ghost var asc := Ascending(pm);
        if noWrite && asc { NoPagesInside(pm, c', vmas[i]); }
        a := a.(noWrite := noWrite);
      }
      SkipNext(files, vmas, links, pareas, mem0, areas0, mem, base, at, to, a);
    }
    ChooseNext(taskSize, vmas, links, pieok, pm, areas0, a);
    areas := areas0 + [a];
  }

  /** The loop of premap_priv_vmas. */
  method PremapLoop(files: Files, taskSize: nat, vmas: seq<Vma>, links: seq<Link>, pareas: seq<Area>,
                    mem0: Memory, base: nat, ghost to: nat, pm: seq<PageEntry>, pieok: bool)
    returns (ok: bool, areas: seq<Area>, mem: Memory, at: nat)
    requires |links| == |vmas| && to == base + PrivateSize(vmas, taskSize) && (pieok ==> |pm| > 0)
    requires SourcesOutside(vmas, links, pareas, mem0, base, to) && SourcesApart(vmas, links, pareas)
    requires Progress(files, vmas, links, pareas, mem0, [], mem0, base, base, to)
    ensures ok <==> StartsAscend(vmas, |vmas|)
    ensures ok ==> |areas| == |vmas| && Progress(files, vmas, links, pareas, mem0, areas, mem, base, at, to)
    ensures ok ==> Chosen(taskSize, vmas, links, pieok, pm, areas)
  {
    areas, mem, at := [], mem0, base;
    var pstart, i := 0, 0;
    var c: nat := 0;
    while i < |vmas|
      invariant i <= |vmas| && |areas| == i && StartsAscend(vmas, i)
      invariant pstart == if i == 0 then 0 else vmas[i - 1].start
      invariant Progress(files, vmas, links, pareas, mem0, areas, mem, base, at, to)
      invariant at <= base + PrivatePages(vmas, taskSize, i)
      invariant Chosen(taskSize, vmas, links, pieok, pm, areas)
      invariant pieok ==> c < |pm| && forall k :: 0 <= k < c ==> End(pm[k]) <= pstart
    {
      if pstart > vmas[i].start {
        return false, [], mem0, base;
      }
      pstart := vmas[i].start;
      areas, mem, at, c := PremapNext(files, taskSize, vmas, links, pareas, mem0, areas, mem, base, at, to, pm, c, pieok);
      i := i + 1;
    }
    ok := true;
  }

  /**
   premap_priv_vmas: every private area that needs it is placed in the reserved range, one after the
   other, holding the parent's pages or untouched ones; an unsorted list is refused.
   */
  method PremapPrivVmas(files: Files, taskSize: nat, vmas: seq<Vma>, links: seq<Link>, pvmas: seq<Vma>, pareas: seq<Area>,
                        mem0: Memory, base: nat, pm: seq<PageEntry>, pieok: bool)
    returns (ok: bool, areas: seq<Area>, mem: Memory, at: nat)
    requires NonEmpty(vmas) && LinksTo(vmas, links, pvmas, pareas, taskSize) && LaidOut(pvmas, pareas, mem0)
    requires Free(mem0, base, base + PrivateSize(vmas, taskSize))
    requires pieok ==> |pm| > 0
    ensures ok <==> StartsAscend(vmas, |vmas|)
    ensures ok ==> |areas| == |vmas|
    ensures ok ==> Progress(files, vmas, links, pareas, mem0, areas, mem, base, at, base + PrivateSize(vmas, taskSize))
    ensures ok ==> Chosen(taskSize, vmas, links, pieok, pm, areas)
  {
    Sources(vmas, links, pvmas, pareas, mem0, base, taskSize);
    ok, areas, mem, at := PremapLoop(files, taskSize, vmas, links, pareas, mem0, base, base + PrivateSize(vmas, taskSize), pm, pieok);
  }
}
