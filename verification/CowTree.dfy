/**
 Restoring the memory of a whole process tree, parents first (prepare_mappings in criu/mem.c).

 A child starts from a copy of its parent's process: page table, areas and bitmaps.
 */
module CowTree {
  import opened CowLinks
  import opened CowMemory
  import opened CowContent

  /** The images: per task its areas, its pagemap and whether its pages can be read in place (pieok). */
  datatype Images = Images(tasks: seq<Task>, pagemaps: seq<seq<PageEntry>>, pieok: seq<bool>, taskSize: nat, lazyPages: bool)

  datatype Proc = Proc(mem: Memory, areas: seq<Area>, io: seq<Chunk>, restored: nat, shared: nat, lazy: nat)

  ghost predicate Disjoint(vmas: seq<Vma>) {
    forall i, j :: 0 <= i < j < |vmas| ==> vmas[i].end <= vmas[j].start || vmas[j].end <= vmas[i].start
  }

  ghost predicate TaskValid(r: Images, t: nat)
    requires t < |r.tasks| == |r.pagemaps| == |r.pieok|
  {
    && NonEmpty(r.tasks[t].vmas) && Disjoint(r.tasks[t].vmas)
    && (r.tasks[t].vmas != [] && r.pieok[t] ==> r.pagemaps[t] != [])
  }

  ghost predicate Valid(r: Images) {
    && |r.tasks| == |r.pagemaps| == |r.pieok| && ParentsFirst(r.tasks)
    && forall t {:trigger TaskValid(r, t)} :: 0 <= t < |r.tasks| ==> TaskValid(r, t)
  }

  ghost function PagesOf(r: Images, t: nat): Image
    requires t < |r.pagemaps|
  {
    ImageOf(r.pagemaps[t], r.lazyPages, |r.pagemaps[t]|)
  }

  /** The area whose mapping area i of task t ends up in: the first of its chain of links. */
  ghost function Origin(r: Images, links: seq<seq<Link>>, t: nat, i: nat): Vma
    requires Valid(r) && LinksOk(r.tasks, r.taskSize, links) && t < |r.tasks| && i < |links[t]|
    decreases t
  {
    assert LinkOk(r.tasks, r.taskSize, links, t, i);
    if links[t][i].Parent? then Origin(r, links, r.tasks[t].parent, links[t][i].index) else r.tasks[t].vmas[i]
  }

  /** Page va of area i: its bit, its mapping and its contents. */
  ghost predicate PageRight(files: Files, r: Images, links: seq<seq<Link>>, t: nat, p: Proc, i: nat, va: nat)
    requires Valid(r) && LinksOk(r.tasks, r.taskSize, links) && t < |r.tasks|
    requires LaidOut(r.tasks[t].vmas, p.areas, p.mem)
    requires i < |p.areas| && p.areas[i].premapped && InVma(r.tasks[t].vmas[i], va)
  {
    var off := va - r.tasks[t].vmas[i].start;
    var cell := p.mem[p.areas[i].addr + off];
    && (p.areas[i].bits[off] <==> va in PagesOf(r, t))
    && cell.backing == BackingOf(Origin(r, links, t, i), off)
    && cell.page == if va in PagesOf(r, t) then PagesOf(r, t)[va] else Default(files, cell.backing)
  }

  /** The process of task t is restored. */
  ghost predicate ProcOk(files: Files, r: Images, links: seq<seq<Link>>, t: nat, p: Proc)
    requires Valid(r) && LinksOk(r.tasks, r.taskSize, links) && t < |r.tasks|
  {
    var vmas := r.tasks[t].vmas;
    && LaidOut(vmas, p.areas, p.mem)
    && (forall i {:trigger p.areas[i]} :: 0 <= i < |vmas| ==>
          (p.areas[i].premapped <==> NeedsPremap(vmas, links[t], r.pieok[t], r.taskSize, i)))
    && (forall i, va {:trigger PageRight(files, r, links, t, p, i, va)} ::
          0 <= i < |vmas| && p.areas[i].premapped && InVma(vmas[i], va) ==> PageRight(files, r, links, t, p, i, va))
    && (forall i, va {:trigger InVma(vmas[i], va)} ::
          0 <= i < |vmas| && !p.areas[i].premapped && InVma(vmas[i], va) ==> (Queued(p.io, va) <==> va in PagesOf(r, t)))
    && (vmas != [] ==> p.restored + p.shared + p.lazy == PagesListed(r.pagemaps[t], |r.pagemaps[t]|))
  }

  /** The parent's areas as task t finds them after fork. */
  function ParentVmas(r: Images, t: nat): seq<Vma>
    requires t < |r.tasks| && -1 <= r.tasks[t].parent < t
  {
    if r.tasks[t].parent < 0 then [] else r.tasks[r.tasks[t].parent].vmas
  }

  /** What task t got from fork: its parent's restored process, or nothing for the root. */
  ghost predicate Forked(files: Files, r: Images, links: seq<seq<Link>>, t: nat, pp: Proc)
    requires Valid(r) && LinksOk(r.tasks, r.taskSize, links) && t < |r.tasks|
  {
    if r.tasks[t].parent >= 0 then ProcOk(files, r, links, r.tasks[t].parent, pp) else pp.areas == []
  }

  lemma LinksLead(files: Files, r: Images, links: seq<seq<Link>>, t: nat, pp: Proc)
    requires Valid(r) && LinksOk(r.tasks, r.taskSize, links) && t < |r.tasks|
    requires Forked(files, r, links, t, pp)
    ensures LinksTo(r.tasks[t].vmas, links[t], ParentVmas(r, t), pp.areas, r.taskSize)
  {
    var vmas, mine := r.tasks[t].vmas, links[t];
    forall i | 0 <= i < |mine| && mine[i].Parent?
      ensures mine[i].index < |pp.areas| && pp.areas[mine[i].index].premapped
      ensures CowPair(vmas[i], ParentVmas(r, t)[mine[i].index], r.taskSize)
    {
      assert LinkOk(r.tasks, r.taskSize, links, t, i);
    }
    forall i, k | 0 <= i < k < |mine| && mine[i].Parent? ensures mine[i] != mine[k] {
      assert LinkOk(r.tasks, r.taskSize, links, t, i) && LinkOk(r.tasks, r.taskSize, links, t, k);
      assert TaskValid(r, t);
    }
  }

  ghost predicate Extends(mem: Memory, mem': Memory) {
    forall x :: x in mem ==> x in mem' && mem'[x] == mem[x]
  }

  lemma ParentLaidOut(files: Files, r: Images, links: seq<seq<Link>>, t: nat, pp: Proc, mem0: Memory)
    requires Valid(r) && LinksOk(r.tasks, r.taskSize, links) && t < |r.tasks| && Forked(files, r, links, t, pp)
    requires Extends(pp.mem, mem0)
    ensures LaidOut(ParentVmas(r, t), pp.areas, mem0)
  {
    assert LaidOut(ParentVmas(r, t), pp.areas, pp.mem);
    forall i | 0 <= i < |pp.areas| && pp.areas[i].premapped ensures MapsRange(mem0, pp.areas[i].addr, Len(ParentVmas(r, t)[i])) {
      assert MapsRange(pp.mem, pp.areas[i].addr, Len(ParentVmas(r, t)[i]));
    }
  }

  /** The cell that page va of area i starts from: mapped like its origin, and stray or untouched. */
  lemma FirstCell(files: Files, r: Images, links: seq<seq<Link>>, t: nat, pp: Proc, mem0: Memory, a: Area, mem: Memory, i: nat, va: nat)
    requires Valid(r) && LinksOk(r.tasks, r.taskSize, links) && t < |r.tasks| && Forked(files, r, links, t, pp)
    requires Extends(pp.mem, mem0)
    requires i < |r.tasks[t].vmas| && InVma(r.tasks[t].vmas[i], va)
    requires Placed(files, r.tasks[t].vmas[i], links[t][i], pp.areas, mem0, a, mem)
    ensures var off := va - r.tasks[t].vmas[i].start;
            var x := a.addr + off;
            && x in mem && mem[x].Mapped?
            && mem[x].backing == BackingOf(Origin(r, links, t, i), off)
            && (links[t][i].Parent? ==> links[t][i].index < |pp.areas| && |pp.areas[links[t][i].index].bits| == Len(r.tasks[t].vmas[i]))
            && (mem[x].page == Default(files, mem[x].backing) || (links[t][i].Parent? && pp.areas[links[t][i].index].bits[off]))
  {
    var v := r.tasks[t].vmas[i];
    var off := va - v.start;
    assert PlacedPage(files, v, links[t][i], pp.areas, mem0, a, mem, off);
    if links[t][i].Parent? {
      assert LinkOk(r.tasks, r.taskSize, links, t, i);
      LinksLead(files, r, links, t, pp);
      var parent, j := r.tasks[t].parent, links[t][i].index;
      var pv := r.tasks[parent].vmas[j];
      assert PageRight(files, r, links, parent, pp, j, va);
      assert mem0[pp.areas[j].addr + off] == pp.mem[pp.areas[j].addr + off];
    }
  }

  ghost function CtxOf(r: Images, links: seq<seq<Link>>, t: nat): Ctx
    requires t < |r.tasks| && t < |links|
  {
    Ctx(r.taskSize, r.tasks[t].vmas, links[t])
  }

  /** The areas of task t have been placed. */
  ghost predicate Ready(files: Files, r: Images, links: seq<seq<Link>>, t: nat, pp: Proc, mem0: Memory,
                        areas: seq<Area>, mem: Memory, base: nat, at: nat, to: nat)
    requires Valid(r) && LinksOk(r.tasks, r.taskSize, links) && t < |r.tasks|
  {
    var vmas := r.tasks[t].vmas;
    && Forked(files, r, links, t, pp) && Extends(pp.mem, mem0)
    && |areas| == |vmas| && Separate(vmas)
    && Progress(files, vmas, links[t], pp.areas, mem0, areas, mem, base, at, to)
    && Chosen(r.taskSize, vmas, links[t], r.pieok[t], r.pagemaps[t], areas)
  }

  function Begin(mem: Memory, areas: seq<Area>, pareas: seq<Area>): Work {
    Work(mem, areas, pareas, [], 0, 0, 0, 0)
  }

  lemma BeginShape(files: Files, r: Images, links: seq<seq<Link>>, t: nat, pp: Proc, mem0: Memory,
                   areas: seq<Area>, mem: Memory, base: nat, at: nat, to: nat)
    requires Valid(r) && LinksOk(r.tasks, r.taskSize, links) && t < |r.tasks|
    requires Ready(files, r, links, t, pp, mem0, areas, mem, base, at, to)
    ensures Shape(CtxOf(r, links, t), Begin(mem, areas, pp.areas))
  {
    var c, w, vmas := CtxOf(r, links, t), Begin(mem, areas, pp.areas), r.tasks[t].vmas;
    LinksLead(files, r, links, t, pp);
    assert TaskValid(r, t);
    forall i | 0 <= i < |vmas| ensures AreaShape(c, w, i) {
      if areas[i].premapped {
        forall x | areas[i].addr <= x < areas[i].addr + Len(vmas[i]) ensures x in mem && mem[x].Mapped? {
          FirstCell(files, r, links, t, pp, mem0, areas[i], mem, i, vmas[i].start + (x - areas[i].addr));
        }
        if links[t][i].Parent? {
          FirstCell(files, r, links, t, pp, mem0, areas[i], mem, i, vmas[i].start);
        }
      }
    }
  }

  lemma BeginInv(files: Files, r: Images, links: seq<seq<Link>>, t: nat, pp: Proc, mem0: Memory,
                 areas: seq<Area>, mem: Memory, base: nat, at: nat, to: nat)
    requires Valid(r) && LinksOk(r.tasks, r.taskSize, links) && t < |r.tasks|
    requires Ready(files, r, links, t, pp, mem0, areas, mem, base, at, to)
    ensures Inv(files, CtxOf(r, links, t), Begin(mem, areas, pp.areas), map[])
  {
    var c, w, vmas := CtxOf(r, links, t), Begin(mem, areas, pp.areas), r.tasks[t].vmas;
    BeginShape(files, r, links, t, pp, mem0, areas, mem, base, at, to);
    forall i: nat, va: nat | InArea(c, w, i, va) ensures PageOk(files, c, w, map[], i, va) {
      assert AreaShape(c, w, i);
      FirstCell(files, r, links, t, pp, mem0, areas[i], mem, i, va);
    }
  }

  lemma SortedIsSeparate(vmas: seq<Vma>)
    requires Disjoint(vmas) && NonEmpty(vmas) && StartsAscend(vmas, |vmas|)
    ensures Separate(vmas)
  {
    forall i, j | 0 <= i < j < |vmas| ensures vmas[i].end <= vmas[j].start { StartsGrow(vmas, i, j); }
  }

  lemma {:induction false} StartsGrow(vmas: seq<Vma>, i: nat, j: nat)
    requires StartsAscend(vmas, |vmas|) && i <= j < |vmas|
    ensures vmas[i].start <= vmas[j].start
  {
    if i < j { StartsGrow(vmas, i, j - 1); }
  }

  lemma ChosenWritable(c: Ctx, w: Work, pieok: bool, pm: seq<PageEntry>)
    requires |w.areas| == |c.vmas| == |c.links| && Chosen(c.taskSize, c.vmas, c.links, pieok, pm, w.areas) && Ascending(pm)
    ensures AllWritable(c, w, pm)
  {
    forall k | 0 <= k < |pm| ensures Writable(c, w, pm[k]) {
      forall v | 0 <= v < |c.vmas| && !w.areas[v].premapped && w.areas[v].noWrite
        ensures End(pm[k]) <= c.vmas[v].start || c.vmas[v].end <= pm[k].vaddr
      {
        assert NoPages(pm, c.vmas[v]);
      }
    }
  }

  /** The process after the unused tail of the reserved range was unmapped. */
  function Finished(w: Work, at: nat, to: nat): Proc
    requires at <= to
  {
    Proc(w.mem - Range(at, to - at), w.areas, w.io, w.restored, w.shared, w.lazy)
  }

  /** Filling does not change what a page is mapped to, and the tail cut off holds no area. */
  lemma BackingKept(files: Files, r: Images, links: seq<seq<Link>>, t: nat, pp: Proc, mem0: Memory,
                    areas: seq<Area>, mem: Memory, base: nat, at: nat, to: nat, w: Work, i: nat, va: nat)
    requires Valid(r) && LinksOk(r.tasks, r.taskSize, links) && t < |r.tasks|
    requires Ready(files, r, links, t, pp, mem0, areas, mem, base, at, to)
    requires SameFrame(Begin(mem, areas, pp.areas), w)
    requires i < |w.areas| && w.areas[i].premapped && InVma(r.tasks[t].vmas[i], va)
    ensures var off := va - r.tasks[t].vmas[i].start;
            var x := w.areas[i].addr + off;
            x in w.mem && x < at && w.mem[x].Mapped? && w.mem[x].backing == BackingOf(Origin(r, links, t, i), off)
  {
    assert w.areas[i].(bits := []) == areas[i].(bits := []);
    FirstCell(files, r, links, t, pp, mem0, areas[i], mem, i, va);
    var x := areas[i].addr + (va - r.tasks[t].vmas[i].start);
    assert x in w.mem && w.mem[x].backing == mem[x].backing;
  }

  /** One page of the finished process. */
  lemma FinishedPage(files: Files, r: Images, links: seq<seq<Link>>, t: nat, w: Work, at: nat, to: nat, p: Proc, i: nat, va: nat)
    requires Valid(r) && LinksOk(r.tasks, r.taskSize, links) && t < |r.tasks| && at <= to
    requires Inv(files, CtxOf(r, links, t), w, PagesOf(r, t))
    requires CleanUpTo(files, CtxOf(r, links, t), w, PagesOf(r, t), |r.tasks[t].vmas|, 0)
    requires p == Finished(w, at, to) && LaidOut(r.tasks[t].vmas, p.areas, p.mem)
    requires i < |p.areas| && p.areas[i].premapped && InVma(r.tasks[t].vmas[i], va)
    requires var off := va - r.tasks[t].vmas[i].start;
             var x := w.areas[i].addr + off;
             x in w.mem && w.mem[x].Mapped? && w.mem[x].backing == BackingOf(Origin(r, links, t, i), off)
    ensures PageRight(files, r, links, t, p, i, va)
  {
    var c, img := CtxOf(r, links, t), PagesOf(r, t);
    assert PageOk(files, c, w, img, i, va) && Clean(files, c, w, img, i, va);
  }

  lemma FinishedLayout(files: Files, r: Images, links: seq<seq<Link>>, t: nat, pp: Proc, mem0: Memory,
                       areas: seq<Area>, mem: Memory, base: nat, at: nat, to: nat, w: Work, p: Proc)
    requires Valid(r) && LinksOk(r.tasks, r.taskSize, links) && t < |r.tasks|
    requires Ready(files, r, links, t, pp, mem0, areas, mem, base, at, to)
    requires SameFrame(Begin(mem, areas, pp.areas), w) && Shape(CtxOf(r, links, t), w)
    requires p == Finished(w, at, to)
    ensures LaidOut(r.tasks[t].vmas, p.areas, p.mem)
  {
    var c, vmas := CtxOf(r, links, t), r.tasks[t].vmas;
    forall i | 0 <= i < |vmas| && p.areas[i].premapped
      ensures |p.areas[i].bits| == Len(vmas[i]) && MapsRange(p.mem, p.areas[i].addr, Len(vmas[i]))
    {
      assert AreaShape(c, w, i);
      assert w.areas[i].(bits := []) == areas[i].(bits := []);
    }
  }

  lemma FinishedOk(files: Files, r: Images, links: seq<seq<Link>>, t: nat, pp: Proc, mem0: Memory,
                   areas: seq<Area>, mem: Memory, base: nat, at: nat, to: nat, w: Work, p: Proc)
    requires Valid(r) && LinksOk(r.tasks, r.taskSize, links) && t < |r.tasks|
    requires Ready(files, r, links, t, pp, mem0, areas, mem, base, at, to)
    requires SameFrame(Begin(mem, areas, pp.areas), w) && Inv(files, CtxOf(r, links, t), w, PagesOf(r, t))
    requires CleanUpTo(files, CtxOf(r, links, t), w, PagesOf(r, t), |r.tasks[t].vmas|, 0)
    requires w.restored + w.shared + w.lazy == PagesListed(r.pagemaps[t], |r.pagemaps[t]|)
    requires p == Finished(w, at, to)
    ensures ProcOk(files, r, links, t, p)
  {
    var c, vmas := CtxOf(r, links, t), r.tasks[t].vmas;
    FinishedLayout(files, r, links, t, pp, mem0, areas, mem, base, at, to, w, p);
    forall i | 0 <= i < |vmas| ensures p.areas[i].premapped <==> NeedsPremap(vmas, links[t], r.pieok[t], r.taskSize, i) {
      assert w.areas[i].(bits := []) == areas[i].(bits := []);
    }
    forall i, va | 0 <= i < |vmas| && p.areas[i].premapped && InVma(vmas[i], va) ensures PageRight(files, r, links, t, p, i, va) {
      BackingKept(files, r, links, t, pp, mem0, areas, mem, base, at, to, w, i, va);
      FinishedPage(files, r, links, t, w, at, to, p, i, va);
    }
    forall i, va | 0 <= i < |vmas| && !p.areas[i].premapped && InVma(vmas[i], va) ensures Queued(p.io, va) <==> va in PagesOf(r, t) {
      assert QueueOk(c, w, PagesOf(r, t), i, va);
    }
  }

  /** The task can be restored: its list is sorted and every page to restore lies in a private area. */
  ghost predicate Restorable(r: Images, links: seq<seq<Link>>, t: nat)
    requires t < |r.tasks| && t < |r.pagemaps| && t < |links|
  {
    r.tasks[t].vmas != [] ==>
      StartsAscend(r.tasks[t].vmas, |r.tasks[t].vmas|) && AllPrivate(CtxOf(r, links, t), r.pagemaps[t], r.lazyPages)
  }

  /** prepare_mappings, wherever the kernel puts the reserved range. */
  method PrepareMappings(files: Files, r: Images, links: seq<seq<Link>>, t: nat, pp: Proc, base: nat) returns (ok: bool, p: Proc)
    requires Valid(r) && LinksOk(r.tasks, r.taskSize, links) && t < |r.tasks| && Forked(files, r, links, t, pp)
    requires forall x :: base <= x < base + PrivateSize(r.tasks[t].vmas, r.taskSize) ==> x !in pp.mem
    ensures ok ==> ProcOk(files, r, links, t, p) && Restorable(r, links, t)
    ensures Ascending(r.pagemaps[t]) && !ok ==> !Restorable(r, links, t)
  {
    var vmas := r.tasks[t].vmas;
    if vmas == [] {
      return true, Proc(pp.mem, [], [], 0, 0, 0);
    }
    var size := PrivateSize(vmas, r.taskSize);
    var mem0 := pp.mem + map x: nat | x in Range(base, size) :: Reserved;
    ParentLaidOut(files, r, links, t, pp, mem0);
    LinksLead(files, r, links, t, pp);
    assert TaskValid(r, t);
    var areas, mem, at;
    ok, areas, mem, at := PremapPrivVmas(files, r.taskSize, vmas, links[t], ParentVmas(r, t), pp.areas, mem0, base, r.pagemaps[t], r.pieok[t]);
    if !ok {
      return false, pp;
    }
    SortedIsSeparate(vmas);
    assert Ready(files, r, links, t, pp, mem0, areas, mem, base, at, base + size);
    BeginInv(files, r, links, t, pp, mem0, areas, mem, base, at, base + size);
    ok, p := FillAndFinish(files, r, links, t, pp, mem0, areas, mem, base, at, base + size);
  }

  /** restore_priv_vma_content and the end of prepare_mappings. */
  method FillAndFinish(files: Files, r: Images, links: seq<seq<Link>>, t: nat, pp: Proc, ghost mem0: Memory,
                       areas: seq<Area>, mem: Memory, ghost base: nat, at: nat, to: nat) returns (ok: bool, p: Proc)
    requires Valid(r) && LinksOk(r.tasks, r.taskSize, links) && t < |r.tasks| && r.tasks[t].vmas != []
    requires Ready(files, r, links, t, pp, mem0, areas, mem, base, at, to)
    requires Inv(files, CtxOf(r, links, t), Begin(mem, areas, pp.areas), map[])
    ensures ok ==> ProcOk(files, r, links, t, p) && AllPrivate(CtxOf(r, links, t), r.pagemaps[t], r.lazyPages)
    ensures Ascending(r.pagemaps[t]) && !ok ==> !AllPrivate(CtxOf(r, links, t), r.pagemaps[t], r.lazyPages)
  {
    var c, begin := Ctx(r.taskSize, r.tasks[t].vmas, links[t]), Begin(mem, areas, pp.areas);
    var outcome, filled := FillAreas(files, c, begin, r.pagemaps[t], r.lazyPages);
    if outcome != Ok {
      ghost var asc := Ascending(r.pagemaps[t]);
      if asc { ChosenWritable(c, begin, r.pieok[t], r.pagemaps[t]); }
      return false, pp;
    }
    forall v | 0 <= v < |c.vmas| && c.links[v].Parent? ensures filled.areas[v].premapped {
      assert LinkOk(r.tasks, r.taskSize, links, t, v);
      assert filled.areas[v].(bits := []) == areas[v].(bits := []);
    }
    var w := DropStrays(files, c, filled, PagesOf(r, t));
    FrameTransitive(begin, filled, w);
    p := Finished(w, at, to);
    FinishedOk(files, r, links, t, pp, mem0, areas, mem, base, at, to, w, p);
    ok := true;
  }

  /** Where mmap puts a range of n pages when it may choose: some free place. */
  ghost predicate Places(place: (Memory, nat) -> nat) {
    forall mem, n, x :: place(mem, n) <= x < place(mem, n) + n ==> x !in mem
  }

  /**
   The whole tree. Every task ends with exactly its own pages, whatever its parent left in the areas it
   took over; with ascending pagemaps the restore fails only when some task cannot be restored.
   */
  method RestoreTree(files: Files, r: Images, place: (Memory, nat) -> nat) returns (ok: bool, links: seq<seq<Link>>, procs: seq<Proc>)
    requires Valid(r) && Places(place)
    ensures LinksOk(r.tasks, r.taskSize, links)
    ensures ok ==> |procs| == |r.tasks| && forall t :: 0 <= t < |r.tasks| ==> ProcOk(files, r, links, t, procs[t])
    ensures ok ==> forall t :: 0 <= t < |r.tasks| ==> Restorable(r, links, t)
    ensures (forall t :: 0 <= t < |r.tasks| ==> Ascending(r.pagemaps[t])) && !ok ==>
      exists t :: 0 <= t < |r.tasks| && !Restorable(r, links, t)
  {
    links := PrepareCowVmas(r.tasks, r.taskSize);
    procs := [];
    while |procs| < |r.tasks|
      invariant |procs| <= |r.tasks|
      invariant forall t :: 0 <= t < |procs| ==> ProcOk(files, r, links, t, procs[t])
      invariant forall t :: 0 <= t < |procs| ==> Restorable(r, links, t)
    {
      var t := |procs|;
      var parent := r.tasks[t].parent;
      var pp := if parent >= 0 then procs[parent] else Proc(map[], [], [], 0, 0, 0);
      var p;
      ok, p := PrepareMappings(files, r, links, t, pp, place(pp.mem, PrivateSize(r.tasks[t].vmas, r.taskSize)));
      if !ok {
        return;
      }
      procs := procs + [p];
    }
    ok := true;
  }

  /** A restore without copy-on-write: map the area afresh and put the listed pages into it. */
  ghost function Plain(files: Files, v: Vma, img: Image, va: nat): Page
    requires InVma(v, va)
  {
    if va in img then img[va] else Default(files, BackingOf(v, va - v.start))
  }

  /**
   What the task sees at va of its private area i once restored: the premapped page, or what the
   restorer maps in place and reads from the image for the queued pages.
   */
  ghost function Seen(files: Files, r: Images, t: nat, p: Proc, i: nat, va: nat): Page
    requires t < |r.tasks| && t < |r.pagemaps| && i < |r.tasks[t].vmas| && LaidOut(r.tasks[t].vmas, p.areas, p.mem)
    requires InVma(r.tasks[t].vmas[i], va)
    requires !p.areas[i].premapped && Queued(p.io, va) ==> va in PagesOf(r, t)
  {
    var v := r.tasks[t].vmas[i];
    if p.areas[i].premapped then p.mem[p.areas[i].addr + (va - v.start)].page
    else if Queued(p.io, va) then PagesOf(r, t)[va]
    else Default(files, BackingOf(v, va - v.start))
  }

  /** The copy-on-write restore gives the page of the plain restore exactly when the page is listed or both mappings read the same. */
  lemma FastIsPlainExactlyWhen(files: Files, r: Images, links: seq<seq<Link>>, t: nat, p: Proc, i: nat, va: nat)
    requires Valid(r) && LinksOk(r.tasks, r.taskSize, links) && t < |r.tasks| && ProcOk(files, r, links, t, p)
    requires i < |r.tasks[t].vmas| && InVma(r.tasks[t].vmas[i], va)
    ensures !p.areas[i].premapped && Queued(p.io, va) ==> va in PagesOf(r, t)
    ensures var v := r.tasks[t].vmas[i];
            var off := va - v.start;
            Seen(files, r, t, p, i, va) == Plain(files, v, PagesOf(r, t), va) <==>
              || va in PagesOf(r, t)
              || !p.areas[i].premapped
              || Default(files, BackingOf(Origin(r, links, t, i), off)) == Default(files, BackingOf(v, off))
  {
    if p.areas[i].premapped {
      assert PageRight(files, r, links, t, p, i, va);
    }
  }

  /** Both areas are mapped from the same place. */
  predicate SameMapping(a: Vma, b: Vma) {
    || ((a.anonymous || a.aioRing) && (b.anonymous || b.aioRing))
    || (!a.anonymous && !a.aioRing && !b.anonymous && !b.aioRing && a.pgoff == b.pgoff)
  }

  /** A chain of links keeps the range, the kind of mapping and the file. */
  lemma {:induction false} OriginMatches(r: Images, links: seq<seq<Link>>, t: nat, i: nat)
    requires Valid(r) && LinksOk(r.tasks, r.taskSize, links) && t < |r.tasks| && i < |links[t]|
    ensures var o, v := Origin(r, links, t, i), r.tasks[t].vmas[i];
            o.start == v.start && o.end == v.end && o.anonymous == v.anonymous && (v.anonymous || o.file == v.file)
    decreases t
  {
    assert LinkOk(r.tasks, r.taskSize, links, t, i);
    if links[t][i].Parent? { OriginMatches(r, links, r.tasks[t].parent, links[t][i].index); }
  }

  /** The two mappings read the same for all file contents exactly when they are the same mapping. */
  lemma ReadTheSameExactlyWhen(r: Images, links: seq<seq<Link>>, t: nat, i: nat, off: nat)
    requires Valid(r) && LinksOk(r.tasks, r.taskSize, links) && t < |r.tasks| && i < |links[t]|
    ensures var a, b := Origin(r, links, t, i), r.tasks[t].vmas[i];
            (forall files: Files :: Default(files, BackingOf(a, off)) == Default(files, BackingOf(b, off))) <==> SameMapping(a, b)
  {
    var a, b := BackingOf(Origin(r, links, t, i), off), BackingOf(r.tasks[t].vmas[i], off);
    OriginMatches(r, links, t, i);
    if a != b {
      var files: Files := (f: nat, o: nat) => if a == FilePage(f, o) then Data(1) else Data(2);
      assert Default(files, a) != Default(files, b);
    }
  }

  /** Every linked area is mapped like its parent's: for files, at the same offset. */
  ghost predicate LinksMapAlike(r: Images, links: seq<seq<Link>>)
    requires Valid(r) && LinksOk(r.tasks, r.taskSize, links)
  {
    forall t, i {:trigger LinkOk(r.tasks, r.taskSize, links, t, i)} :: 0 <= t < |r.tasks| && 0 <= i < |links[t]| && links[t][i].Parent? ==>
      LinkOk(r.tasks, r.taskSize, links, t, i) && SameMapping(r.tasks[t].vmas[i], r.tasks[r.tasks[t].parent].vmas[links[t][i].index])
  }

  lemma {:induction false} OriginIsSameMapping(r: Images, links: seq<seq<Link>>, t: nat, i: nat)
    requires Valid(r) && LinksOk(r.tasks, r.taskSize, links) && t < |r.tasks| && i < |links[t]|
    requires LinksMapAlike(r, links)
    ensures SameMapping(Origin(r, links, t, i), r.tasks[t].vmas[i])
    decreases t
  {
    assert LinkOk(r.tasks, r.taskSize, links, t, i);
    if links[t][i].Parent? { OriginIsSameMapping(r, links, r.tasks[t].parent, links[t][i].index); }
  }

  /** Then the whole tree gets the memory of a plain restore. */
  lemma TreeIsPlain(files: Files, r: Images, links: seq<seq<Link>>, t: nat, p: Proc, i: nat, va: nat)
    requires Valid(r) && LinksOk(r.tasks, r.taskSize, links) && t < |r.tasks| && ProcOk(files, r, links, t, p)
    requires LinksMapAlike(r, links)
    requires i < |r.tasks[t].vmas| && InVma(r.tasks[t].vmas[i], va)
    ensures !p.areas[i].premapped && Queued(p.io, va) ==> va in PagesOf(r, t)
    ensures Seen(files, r, t, p, i, va) == Plain(files, r.tasks[t].vmas[i], PagesOf(r, t), va)
  {
    FastIsPlainExactlyWhen(files, r, links, t, p, i, va);
    OriginIsSameMapping(r, links, t, i);
    OriginMatches(r, links, t, i);
  }

  function FileArea(pgoff: nat): Vma { Vma(0, 1, true, false, true, false, false, false, 7, pgoff) }

  /** A root and its child mapping one file at different offsets, with no page of their own. */
  function OffsetImages(): Images {
    Images([Task([FileArea(0)], 3, -1), Task([FileArea(1)], 3, 0)],
           [[PageEntry(0, [], false)], [PageEntry(0, [], false)]], [true, true], 10, false)
  }

  /** The offsets are not compared when areas are linked, and the child then sees the wrong page of the file. */
  lemma OffsetsMayDiffer(files: Files, p: Proc)
    requires files(7, 0) != files(7, 1)
    ensures var r, links := OffsetImages(), [[CowRoot], [Parent(0)]];
            && Valid(r) && LinksOk(r.tasks, r.taskSize, links) && Merged(r.tasks, r.taskSize, links, 1)
            && (ProcOk(files, r, links, 1, p) ==>
                  p.areas[0].premapped && Seen(files, r, 1, p, 0, 0) != Plain(files, FileArea(1), PagesOf(r, 1), 0))
  {
    var r, links := OffsetImages(), [[CowRoot], [Parent(0)]];
    assert forall t :: 0 <= t < |r.tasks| ==> TaskValid(r, t);
    assert Fill(map[], 0, []) == map[];
    assert PagesOf(r, 1) == map[];
    if ProcOk(files, r, links, 1, p) {
      FastIsPlainExactlyWhen(files, r, links, 1, p, 0, 0);
      assert Origin(r, links, 1, 0) == FileArea(0);
    }
  }
}
