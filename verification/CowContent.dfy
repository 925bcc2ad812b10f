/**
 Filling the private areas of a task with its pages (restore_priv_vma_content in criu/mem.c).

 Pages a child has in common with its parent are found by comparing; pages only the parent has are
 found by bitmap and dropped at the end.
 */
module CowContent {
  import opened CowLinks
  import opened CowMemory
  import Bitmap

  datatype Ctx = Ctx(taskSize: nat, vmas: seq<Vma>, links: seq<Link>)

  /** A range queued for the restorer: pages va up to va + n. */
  datatype Chunk = Chunk(va: nat, n: nat)

  /** pareas are the parent's areas, in the copy this process got at fork. */
  datatype Work = Work(mem: Memory, areas: seq<Area>, pareas: seq<Area>, io: seq<Chunk>,
                       restored: nat, shared: nat, compared: nat, lazy: nat)

  type Image = map<nat, Page>

  predicate InVma(v: Vma, va: nat) { v.start <= va < v.end }

  ghost predicate HasPrivate(c: Ctx, va: nat) {
    exists v :: 0 <= v < |c.vmas| && InVma(c.vmas[v], va) && Private(c.vmas[v], c.taskSize)
  }

  ghost predicate Separate(vmas: seq<Vma>) {
    forall i, j :: 0 <= i < j < |vmas| ==> vmas[i].end <= vmas[j].start
  }

  ghost predicate AreaShape(c: Ctx, w: Work, v: nat)
    requires v < |c.vmas| == |c.links| == |w.areas|
  {
    w.areas[v].premapped ==>
      && |w.areas[v].bits| == Len(c.vmas[v])
      && MapsRange(w.mem, w.areas[v].addr, Len(c.vmas[v]))
      && (c.links[v].Parent? ==> c.links[v].index < |w.pareas| && |w.pareas[c.links[v].index].bits| == Len(c.vmas[v]))
  }

  /** The frame the filling works in; only page contents and bitmap bits change. */
  ghost predicate Shape(c: Ctx, w: Work) {
    && |c.vmas| == |c.links| == |w.areas|
    && NonEmpty(c.vmas) && Separate(c.vmas) && Packed(c.vmas, w.areas)
    && (forall i, k :: 0 <= i < k < |c.links| && c.links[i].Parent? ==> c.links[i] != c.links[k])
    && forall v {:trigger AreaShape(c, w, v)} :: 0 <= v < |c.vmas| ==> AreaShape(c, w, v)
  }

  ghost predicate InArea(c: Ctx, w: Work, v: nat, va: nat) {
    v < |c.vmas| && v < |w.areas| && w.areas[v].premapped && InVma(c.vmas[v], va)
  }

  /** The parent has this page and the child has not claimed it (yet). */
  ghost predicate Stray(c: Ctx, w: Work, v: nat, off: nat)
    requires Shape(c, w) && v < |c.vmas| && w.areas[v].premapped && off < Len(c.vmas[v])
  {
    assert AreaShape(c, w, v);
    c.links[v].Parent? && w.pareas[c.links[v].index].bits[off]
  }

  /** The page at va, when the pages of img have been filled in so far. */
  ghost predicate PageOk(files: Files, c: Ctx, w: Work, img: Image, v: nat, va: nat)
    requires Shape(c, w) && InArea(c, w, v, va)
  {
    assert AreaShape(c, w, v);
    var off := va - c.vmas[v].start;
    var cell := w.mem[w.areas[v].addr + off];
    && (w.areas[v].bits[off] <==> va in img)
    && (va in img ==> cell.page == img[va] && !Stray(c, w, v, off))
    && (va !in img && !Stray(c, w, v, off) ==> cell.page == Default(files, cell.backing))
  }

  ghost predicate Queued(io: seq<Chunk>, va: nat) {
    exists k :: 0 <= k < |io| && io[k].va <= va < io[k].va + io[k].n
  }

  ghost predicate QueueOk(c: Ctx, w: Work, img: Image, v: nat, va: nat) {
    v < |c.vmas| && v < |w.areas| && !w.areas[v].premapped && InVma(c.vmas[v], va) ==> (Queued(w.io, va) <==> va in img)
  }

  /** Everything filled in so far is right, and nothing else was touched. */
  ghost predicate Inv(files: Files, c: Ctx, w: Work, img: Image) {
    && Shape(c, w)
    && (forall v, va {:trigger PageOk(files, c, w, img, v, va)} :: InArea(c, w, v, va) ==> PageOk(files, c, w, img, v, va))
    && (forall v, va {:trigger QueueOk(c, w, img, v, va)} :: QueueOk(c, w, img, v, va))
    && (forall va :: va in img ==> HasPrivate(c, va))
  }

  /** img with the pages qs listed at va and on. */
  function Fill(img: Image, va: nat, qs: seq<Page>): Image
    decreases |qs|
  {
    if qs == [] then img else Fill(img[va := qs[0]], va + 1, qs[1..])
  }

  lemma {:induction false} FillAt(img: Image, va: nat, qs: seq<Page>, x: nat)
    ensures FilledAt(img, va, qs, Fill(img, va, qs), x)
    decreases |qs|
  {
    if qs != [] { FillAt(img[va := qs[0]], va + 1, qs[1..], x); }
  }

  lemma {:induction false} FillSplit(img: Image, va: nat, qs: seq<Page>, n: nat)
    requires n <= |qs|
    ensures Fill(img, va, qs) == Fill(Fill(img, va, qs[..n]), va + n, qs[n..])
    decreases n
  {
    if n > 0 {
      FillSplit(img[va := qs[0]], va + 1, qs[1..], n - 1);
      assert qs[1..][..n - 1] == qs[..n][1..] && qs[1..][n - 1..] == qs[n..];
    }
  }

  /** Copying pages over what is mapped at at. */
  function Write(mem: Memory, at: nat, qs: seq<Page>): Memory
    requires MapsRange(mem, at, |qs|)
  {
    mem + map x: nat | x in Range(at, |qs|) :: Mapped(mem[x].backing, qs[x - at])
  }

  /** The inherited branch: claim the page, and copy it only if it differs from the parent's. */
  function CompareStep(c: Ctx, w: Work, v: nat, va: nat, q: Page): Work
    requires Shape(c, w) && InArea(c, w, v, va) && c.links[v].Parent?
  {
    assert AreaShape(c, w, v);
    var off := va - c.vmas[v].start;
    var at, j := w.areas[v].addr + off, c.links[v].index;
    var same := w.mem[at].page == q;
    w.(areas := w.areas[v := w.areas[v].(bits := w.areas[v].bits[off := true])],
       pareas := w.pareas[j := w.pareas[j].(bits := w.pareas[j].bits[off := false])],
       mem := if same then w.mem else w.mem[at := Mapped(w.mem[at].backing, q)],
       compared := w.compared + 1,
       shared := if same then w.shared + 1 else w.shared,
       restored := if same then w.restored else w.restored + 1)
  }

  /** The other premapped branch: read as many pages as the entry and the area have in common. */
  function ReadStep(c: Ctx, w: Work, v: nat, va: nat, qs: seq<Page>): Work
    requires Shape(c, w) && InArea(c, w, v, va) && |qs| > 0 && va + |qs| <= c.vmas[v].end
  {
    assert AreaShape(c, w, v);
    var off := va - c.vmas[v].start;
    var bits := Bitmap.Ranged(w.areas[v].bits[off := true], off + 1, off + |qs|, true);
    w.(areas := w.areas[v := w.areas[v].(bits := bits)],
       mem := Write(w.mem, w.areas[v].addr + off, qs),
       restored := w.restored + |qs|)
  }

  /** The branch for areas that are not premapped: leave the pages to the restorer. */
  function EnqueueStep(w: Work, va: nat, n: nat): Work {
    w.(io := w.io + [Chunk(va, n)], restored := w.restored + n)
  }

  lemma CompareShape(c: Ctx, w: Work, v: nat, va: nat, q: Page, w': Work)
    requires Shape(c, w) && InArea(c, w, v, va) && c.links[v].Parent? && w' == CompareStep(c, w, v, va, q)
    ensures Shape(c, w')
  {
    forall k | 0 <= k < |c.vmas| ensures AreaShape(c, w', k) {
      assert AreaShape(c, w, k) && AreaShape(c, w, v);
    }
  }

  lemma ReadShape(c: Ctx, w: Work, v: nat, va: nat, qs: seq<Page>, w': Work)
    requires Shape(c, w) && InArea(c, w, v, va) && |qs| > 0 && va + |qs| <= c.vmas[v].end && w' == ReadStep(c, w, v, va, qs)
    ensures Shape(c, w')
  {
    forall k | 0 <= k < |c.vmas| ensures AreaShape(c, w', k) {
      assert AreaShape(c, w, k) && AreaShape(c, w, v);
    }
  }

  /** Pages of two areas are two pages of memory, and two addresses of the task. */
  lemma Apart(c: Ctx, w: Work, v: nat, va: nat, k: nat, x: nat)
    requires Shape(c, w) && InArea(c, w, v, va) && InArea(c, w, k, x) && (k != v || x != va)
    ensures x != va
    ensures w.areas[k].addr + (x - c.vmas[k].start) != w.areas[v].addr + (va - c.vmas[v].start)
  {
  }

  lemma ComparePage(files: Files, c: Ctx, w: Work, img: Image, v: nat, va: nat, q: Page, w': Work, k: nat, x: nat)
    requires Inv(files, c, w, img) && InArea(c, w, v, va) && c.links[v].Parent? && w' == CompareStep(c, w, v, va, q)
    requires Shape(c, w') && InArea(c, w', k, x)
    ensures PageOk(files, c, w', img[va := q], k, x)
  {
    assert AreaShape(c, w, k) && AreaShape(c, w, v);
    assert PageOk(files, c, w, img, k, x);
    if k != v || x != va {
      Apart(c, w, v, va, k, x);
    }
  }

  /** img' is img with the pages qs at va, as far as the page at x is concerned. */
  ghost predicate FilledAt(img: Image, va: nat, qs: seq<Page>, img': Image, x: nat) {
    && (x in img' <==> x in img || va <= x < va + |qs|)
    && (va <= x < va + |qs| ==> img'[x] == qs[x - va])
    && (x in img && !(va <= x < va + |qs|) ==> img'[x] == img[x])
  }

  /** The area read into. */
  lemma ReadOwnPage(files: Files, c: Ctx, w: Work, img: Image, img': Image, v: nat, va: nat, qs: seq<Page>, w': Work, x: nat)
    requires Inv(files, c, w, img) && InArea(c, w, v, va) && !c.links[v].Parent?
    requires |qs| > 0 && va + |qs| <= c.vmas[v].end && w' == ReadStep(c, w, v, va, qs)
    requires Shape(c, w') && InArea(c, w', v, x) && FilledAt(img, va, qs, img', x)
    ensures PageOk(files, c, w', img', v, x)
  {
    assert AreaShape(c, w, v);
    assert PageOk(files, c, w, img, v, x);
  }

  /** Any other area. */
  lemma ReadOtherPage(files: Files, c: Ctx, w: Work, img: Image, img': Image, v: nat, va: nat, qs: seq<Page>, w': Work, k: nat, x: nat)
    requires Inv(files, c, w, img) && InArea(c, w, v, va) && k != v
    requires |qs| > 0 && va + |qs| <= c.vmas[v].end && w' == ReadStep(c, w, v, va, qs)
    requires Shape(c, w') && InArea(c, w', k, x) && FilledAt(img, va, qs, img', x)
    ensures PageOk(files, c, w', img', k, x)
  {
    assert AreaShape(c, w, k) && AreaShape(c, w, v);
    assert PageOk(files, c, w, img, k, x);
    var n := c.vmas[v].end - 1;
    Apart(c, w, v, n, k, x);
    assert w'.mem[w.areas[k].addr + (x - c.vmas[k].start)] == w.mem[w.areas[k].addr + (x - c.vmas[k].start)];
  }

  lemma CompareKeeps(files: Files, c: Ctx, w: Work, img: Image, v: nat, va: nat, q: Page, w': Work)
    requires Inv(files, c, w, img) && InArea(c, w, v, va) && c.links[v].Parent? && w' == CompareStep(c, w, v, va, q)
    requires Private(c.vmas[v], c.taskSize)
    ensures Inv(files, c, w', img[va := q])
  {
    var img' := img[va := q];
    CompareShape(c, w, v, va, q, w');
    forall k, x | InArea(c, w', k, x) ensures PageOk(files, c, w', img', k, x) {
      ComparePage(files, c, w, img, v, va, q, w', k, x);
    }
    forall k, x ensures QueueOk(c, w', img', k, x) {
      assert QueueOk(c, w, img, k, x);
    }
    forall x | x in img' ensures HasPrivate(c, x) {
      assert InVma(c.vmas[v], va);
    }
  }

  lemma ReadKeeps(files: Files, c: Ctx, w: Work, img: Image, v: nat, va: nat, qs: seq<Page>, w': Work)
    requires Inv(files, c, w, img) && InArea(c, w, v, va) && !c.links[v].Parent? && Private(c.vmas[v], c.taskSize)
    requires |qs| > 0 && va + |qs| <= c.vmas[v].end && w' == ReadStep(c, w, v, va, qs)
    ensures Inv(files, c, w', Fill(img, va, qs))
  {
    var img' := Fill(img, va, qs);
    ReadShape(c, w, v, va, qs, w');
    forall k, x | InArea(c, w', k, x) ensures PageOk(files, c, w', img', k, x) {
      FillAt(img, va, qs, x);
      if k == v {
        ReadOwnPage(files, c, w, img, img', v, va, qs, w', x);
      } else {
        ReadOtherPage(files, c, w, img, img', v, va, qs, w', k, x);
      }
    }
    forall k, x ensures QueueOk(c, w', img', k, x) {
      assert QueueOk(c, w, img, k, x);
      FillAt(img, va, qs, x);
    }
    forall x | x in img' ensures HasPrivate(c, x) {
      FillAt(img, va, qs, x);
      assert x !in img ==> InVma(c.vmas[v], x);
    }
  }

  lemma EnqueueKeeps(files: Files, c: Ctx, w: Work, img: Image, v: nat, va: nat, qs: seq<Page>, w': Work)
    requires Inv(files, c, w, img) && v < |c.vmas| && !w.areas[v].premapped && Private(c.vmas[v], c.taskSize)
    requires c.vmas[v].start <= va && va + |qs| <= c.vmas[v].end && w' == EnqueueStep(w, va, |qs|)
    ensures Inv(files, c, w', Fill(img, va, qs))
  {
    var img' := Fill(img, va, qs);
    forall k | 0 <= k < |c.vmas| ensures AreaShape(c, w', k) { assert AreaShape(c, w, k); }
    forall k, x | InArea(c, w', k, x) ensures PageOk(files, c, w', img', k, x) {
      assert PageOk(files, c, w, img, k, x);
      FillAt(img, va, qs, x);
    }
    forall k, x ensures QueueOk(c, w', img', k, x) {
      assert QueueOk(c, w, img, k, x);
      FillAt(img, va, qs, x);
      QueuedAppend(w.io, Chunk(va, |qs|), x);
    }
    forall x | x in img' ensures HasPrivate(c, x) {
      FillAt(img, va, qs, x);
      assert x !in img ==> InVma(c.vmas[v], x);
    }
  }

  lemma QueuedAppend(io: seq<Chunk>, h: Chunk, va: nat)
    ensures Queued(io + [h], va) <==> Queued(io, va) || h.va <= va < h.va + h.n
  {
    assert (io + [h])[|io|] == h;
    if Queued(io, va) {
      var k :| 0 <= k < |io| && io[k].va <= va < io[k].va + io[k].n;
      assert (io + [h])[k] == io[k];
    }
  }

  datatype Outcome = Ok | BadAddress | Bug

  /** No area before the cursor reaches up to va. */
  ghost predicate CursorOk(c: Ctx, cur: nat, va: nat) {
    cur < |c.vmas| && forall k :: 0 <= k < cur ==> c.vmas[k].end <= va
  }

  /** The area lookup: on from cur to the first area that ends above va. */
  method FindVma(c: Ctx, cur0: nat, va: nat) returns (found: bool, cur: nat)
    requires cur0 < |c.vmas|
    ensures cur0 <= cur < |c.vmas|
    ensures found ==> InVma(c.vmas[cur], va) && Private(c.vmas[cur], c.taskSize)
    ensures CursorOk(c, cur0, va) ==> CursorOk(c, cur, va)
    ensures !found && CursorOk(c, cur0, va) && Separate(c.vmas) && NonEmpty(c.vmas) ==> !HasPrivate(c, va)
  {
    cur := cur0;
    while va >= c.vmas[cur].end
      invariant cur0 <= cur < |c.vmas|
      invariant CursorOk(c, cur0, va) ==> CursorOk(c, cur, va)
      decreases |c.vmas| - cur
    {
      if cur + 1 == |c.vmas| {
        return false, cur;
      }
      cur := cur + 1;
    }
    if va < c.vmas[cur].start {
      return false, cur;
    } else if !Private(c.vmas[cur], c.taskSize) {
      return false, cur;
    }
    return true, cur;
  }

  /** Areas marked VMA_NO_PROT_WRITE have no page in this entry. */
  ghost predicate Writable(c: Ctx, w: Work, e: PageEntry) {
    forall v {:trigger w.areas[v]} :: 0 <= v < |c.vmas| && v < |w.areas| && !w.areas[v].premapped && w.areas[v].noWrite ==>
      End(e) <= c.vmas[v].start || c.vmas[v].end <= e.vaddr
  }

  /** Which areas are premapped and where does not change. */
  ghost predicate SameFrame(w: Work, w': Work) {
    && |w'.areas| == |w.areas| && |w'.pareas| == |w.pareas| && w'.mem.Keys == w.mem.Keys
    && (forall v {:trigger w'.areas[v]} :: 0 <= v < |w.areas| ==> w'.areas[v].(bits := []) == w.areas[v].(bits := []))
    && (forall v {:trigger w'.pareas[v]} :: 0 <= v < |w.pareas| ==> w'.pareas[v].(bits := []) == w.pareas[v].(bits := []))
    && (forall x {:trigger w'.mem[x]} :: x in w.mem && w.mem[x].Mapped? ==> w'.mem[x].Mapped? && w'.mem[x].backing == w.mem[x].backing)
  }

  lemma FrameTransitive(a: Work, b: Work, d: Work)
    requires SameFrame(a, b) && SameFrame(b, d)
    ensures SameFrame(a, d)
  {
    forall v | 0 <= v < |a.areas| ensures d.areas[v].(bits := []) == a.areas[v].(bits := []) {
      assert b.areas[v].(bits := []) == a.areas[v].(bits := []);
    }
    forall v | 0 <= v < |a.pareas| ensures d.pareas[v].(bits := []) == a.pareas[v].(bits := []) {
      assert b.pareas[v].(bits := []) == a.pareas[v].(bits := []);
    }
    forall x | x in a.mem && a.mem[x].Mapped? ensures d.mem[x].Mapped? && d.mem[x].backing == a.mem[x].backing {
      assert b.mem[x].backing == a.mem[x].backing;
    }
  }

  lemma CompareFrame(c: Ctx, w: Work, v: nat, va: nat, q: Page, w': Work)
    requires Shape(c, w) && InArea(c, w, v, va) && c.links[v].Parent? && w' == CompareStep(c, w, v, va, q)
    ensures SameFrame(w, w')
  {
    assert AreaShape(c, w, v);
  }

  lemma ReadFrame(c: Ctx, w: Work, v: nat, va: nat, qs: seq<Page>, w': Work)
    requires Shape(c, w) && InArea(c, w, v, va) && |qs| > 0 && va + |qs| <= c.vmas[v].end && w' == ReadStep(c, w, v, va, qs)
    ensures SameFrame(w, w')
  {
    assert AreaShape(c, w, v);
  }

  /** The loop body for a page in area cur: one or more of the pages qs at va are dealt with. */
  method RestoreSome(ghost files: Files, c: Ctx, w0: Work, ghost img: Image, cur: nat, va: nat, qs: seq<Page>)
    returns (outcome: Outcome, w: Work, nr: nat)
    requires Inv(files, c, w0, img) && cur < |c.vmas| && InVma(c.vmas[cur], va) && Private(c.vmas[cur], c.taskSize) && |qs| > 0
    ensures SameFrame(w0, w)
    ensures outcome == Ok ==> 0 < nr <= |qs| && Inv(files, c, w, Fill(img, va, qs[..nr]))
    ensures outcome == Ok ==> w.restored + w.shared == w0.restored + w0.shared + nr && w.lazy == w0.lazy
    ensures outcome != BadAddress && (outcome == Bug ==> !w0.areas[cur].premapped && w0.areas[cur].noWrite)
  {
    w, nr := w0, if |qs| < c.vmas[cur].end - va then |qs| else c.vmas[cur].end - va;
    if !w.areas[cur].premapped {
      if w.areas[cur].noWrite {
        return Bug, w, nr;
      }
      w := EnqueueStep(w0, va, nr);
      EnqueueKeeps(files, c, w0, img, cur, va, qs[..nr], w);
    } else if c.links[cur].Parent? {
      w, nr := CompareStep(c, w0, cur, va, qs[0]), 1;
      CompareKeeps(files, c, w0, img, cur, va, qs[0], w);
      CompareFrame(c, w0, cur, va, qs[0], w);
      FillOne(img, va, qs);
    } else {
      w := ReadStep(c, w0, cur, va, qs[..nr]);
      ReadKeeps(files, c, w0, img, cur, va, qs[..nr], w);
      ReadFrame(c, w0, cur, va, qs[..nr], w);
    }
    return Ok, w, nr;
  }

  lemma FillOne(img: Image, va: nat, qs: seq<Page>)
    requires |qs| > 0
    ensures Fill(img, va, qs[..1]) == img[va := qs[0]]
  {
    assert qs[..1][1..] == [];
  }

  lemma NotWritable(c: Ctx, w0: Work, w: Work, e: PageEntry, cur: nat, va: nat)
    requires SameFrame(w0, w) && cur < |c.vmas| && cur < |w.areas| && InVma(c.vmas[cur], va) && e.vaddr <= va < End(e)
    requires !w.areas[cur].premapped && w.areas[cur].noWrite
    ensures !Writable(c, w0, e)
  {
    assert w.areas[cur].(bits := []) == w0.areas[cur].(bits := []);
  }

  /** One round of the loop over the pages of entry e, from its page i on. */
  method RestoreFrom(ghost files: Files, c: Ctx, ghost w0: Work, w1: Work, ghost img: Image, cur0: nat, e: PageEntry, i: nat)
    returns (outcome: Outcome, w: Work, cur: nat, nr: nat)
    requires Inv(files, c, w1, img) && SameFrame(w0, w1) && cur0 < |c.vmas| && i < |e.pages|
    ensures cur0 <= cur < |c.vmas| && SameFrame(w0, w)
    ensures outcome == Ok ==> 0 < nr <= |e.pages| - i && Inv(files, c, w, Fill(img, e.vaddr + i, e.pages[i..][..nr]))
    ensures outcome == Ok ==> w.restored + w.shared == w1.restored + w1.shared + nr && w.lazy == w1.lazy
    ensures CursorOk(c, cur0, e.vaddr + i) ==> CursorOk(c, cur, e.vaddr + i)
    ensures outcome == BadAddress && CursorOk(c, cur0, e.vaddr + i) ==> !HasPrivate(c, e.vaddr + i)
    ensures outcome == Bug ==> !Writable(c, w0, e)
  {
    var found;
    found, cur := FindVma(c, cur0, e.vaddr + i);
    if !found {
      return BadAddress, w1, cur, 0;
    }
    outcome, w, nr := RestoreSome(files, c, w1, img, cur, e.vaddr + i, e.pages[i..]);
    FrameTransitive(w0, w1, w);
    if outcome == Bug {
      NotWritable(c, w0, w1, e, cur, e.vaddr + i);
    }
  }

  lemma FillNext(img: Image, sofar: Image, e: PageEntry, i: nat, nr: nat)
    requires i + nr <= |e.pages| && Fill(sofar, e.vaddr + i, e.pages[i..]) == Fill(img, e.vaddr, e.pages)
    ensures Fill(Fill(sofar, e.vaddr + i, e.pages[i..][..nr]), e.vaddr + (i + nr), e.pages[i + nr..]) == Fill(img, e.vaddr, e.pages)
  {
    FillSplit(sofar, e.vaddr + i, e.pages[i..], nr);
    assert e.pages[i..][nr..] == e.pages[i + nr..];
  }

  /** The loop over the pages of one pagemap entry. */
  method RestoreEntry(ghost files: Files, c: Ctx, w0: Work, ghost img: Image, cur0: nat, e: PageEntry)
    returns (outcome: Outcome, w: Work, cur: nat)
    requires Inv(files, c, w0, img) && cur0 < |c.vmas|
    ensures cur0 <= cur < |c.vmas| && SameFrame(w0, w)
    ensures outcome == Ok ==> Inv(files, c, w, Fill(img, e.vaddr, e.pages))
    ensures outcome == Ok ==> w.restored + w.shared == w0.restored + w0.shared + |e.pages| && w.lazy == w0.lazy
    ensures outcome == Ok && CursorOk(c, cur0, e.vaddr) ==> CursorOk(c, cur, End(e))
    ensures outcome == BadAddress && CursorOk(c, cur0, e.vaddr) ==> exists va :: e.vaddr <= va < End(e) && !HasPrivate(c, va)
    ensures outcome == Bug ==> !Writable(c, w0, e)
  {
    w, cur := w0, cur0;
    var i := 0;
    ghost var sofar := img;
    assert e.pages[0..] == e.pages;
    while i < |e.pages|
      invariant i <= |e.pages| && cur0 <= cur < |c.vmas| && SameFrame(w0, w)
      invariant Inv(files, c, w, sofar) && Fill(sofar, e.vaddr + i, e.pages[i..]) == Fill(img, e.vaddr, e.pages)
      invariant w.restored + w.shared == w0.restored + w0.shared + i && w.lazy == w0.lazy
      invariant CursorOk(c, cur0, e.vaddr) ==> CursorOk(c, cur, e.vaddr + i)
    {
      var nr;
      outcome, w, cur, nr := RestoreFrom(files, c, w0, w, sofar, cur, e, i);
      if outcome != Ok {
        return;
      }
      FillNext(img, sofar, e, i, nr);
      sofar := Fill(sofar, e.vaddr + i, e.pages[i..][..nr]);
      i := i + nr;
    }
    return Ok, w, cur;
  }

  /** Entries left to userfaultfd. */
  predicate Skipped(e: PageEntry, lazyPages: bool) { lazyPages && e.lazy }

  /** The pages listed by the first n entries, the last listing winning. */
  ghost function ImageOf(pm: seq<PageEntry>, lazyPages: bool, n: nat): Image
    requires n <= |pm|
  {
    if n == 0 then map[]
    else if Skipped(pm[n - 1], lazyPages) then ImageOf(pm, lazyPages, n - 1)
    else Fill(ImageOf(pm, lazyPages, n - 1), pm[n - 1].vaddr, pm[n - 1].pages)
  }

  function PagesListed(pm: seq<PageEntry>, n: nat): nat
    requires n <= |pm|
  {
    if n == 0 then 0 else PagesListed(pm, n - 1) + |pm[n - 1].pages|
  }

  /** Every page that has to be restored lies in a private area. */
  ghost predicate AllPrivate(c: Ctx, pm: seq<PageEntry>, lazyPages: bool) {
    forall k, va {:trigger pm[k], HasPrivate(c, va)} ::
      0 <= k < |pm| && !Skipped(pm[k], lazyPages) && pm[k].vaddr <= va < End(pm[k]) ==> HasPrivate(c, va)
  }

  lemma {:induction false} ImageHas(pm: seq<PageEntry>, lazyPages: bool, n: nat, k: nat, va: nat)
    requires k < n <= |pm| && !Skipped(pm[k], lazyPages) && pm[k].vaddr <= va < End(pm[k])
    ensures va in ImageOf(pm, lazyPages, n)
  {
    if !Skipped(pm[n - 1], lazyPages) {
      FillAt(ImageOf(pm, lazyPages, n - 1), pm[n - 1].vaddr, pm[n - 1].pages, va);
    }
    if k < n - 1 { ImageHas(pm, lazyPages, n - 1, k, va); }
  }

  /** No area marked VMA_NO_PROT_WRITE gets a page. */
  ghost predicate AllWritable(c: Ctx, w: Work, pm: seq<PageEntry>) {
    forall k :: 0 <= k < |pm| ==> Writable(c, w, pm[k])
  }

  lemma WritableStays(c: Ctx, w: Work, w': Work, e: PageEntry)
    requires SameFrame(w, w') && Writable(c, w, e)
    ensures Writable(c, w', e)
  {
    forall v | 0 <= v < |c.vmas| && v < |w'.areas| && !w'.areas[v].premapped && w'.areas[v].noWrite
      ensures End(e) <= c.vmas[v].start || c.vmas[v].end <= e.vaddr
    {
      assert w'.areas[v].(bits := []) == w.areas[v].(bits := []);
      assert !w.areas[v].premapped;
    }
  }

  /** The page reading loop of restore_priv_vma_content. */
  method FillAreas(ghost files: Files, c: Ctx, w0: Work, pm: seq<PageEntry>, lazyPages: bool) returns (outcome: Outcome, w: Work)
    requires Inv(files, c, w0, map[]) && |c.vmas| > 0 && w0.restored == w0.shared == w0.lazy == 0
    ensures SameFrame(w0, w)
    ensures outcome == Ok ==> Inv(files, c, w, ImageOf(pm, lazyPages, |pm|))
    ensures outcome == Ok ==> w.restored + w.shared + w.lazy == PagesListed(pm, |pm|)
    ensures outcome == Ok ==> AllPrivate(c, pm, lazyPages)
    ensures Ascending(pm) && outcome == BadAddress ==> !AllPrivate(c, pm, lazyPages)
    ensures outcome == Bug ==> !AllWritable(c, w0, pm)
  {
    w := w0;
    var cur, n := 0, 0;
    while n < |pm|
      invariant n <= |pm| && cur < |c.vmas| && SameFrame(w0, w)
      invariant Inv(files, c, w, ImageOf(pm, lazyPages, n))
      invariant w.restored + w.shared + w.lazy == PagesListed(pm, n)
      invariant Ascending(pm) && n < |pm| ==> CursorOk(c, cur, pm[n].vaddr)
    {
      if Skipped(pm[n], lazyPages) {
        ghost var before := w;
        w := w.(lazy := w.lazy + |pm[n].pages|);
        LazyKeeps(files, c, before, w, ImageOf(pm, lazyPages, n));
      } else {
        ghost var before := w;
        outcome, w, cur := RestoreEntry(files, c, w, ImageOf(pm, lazyPages, n), cur, pm[n]);
        FrameTransitive(w0, before, w);
        if outcome != Ok {
          if outcome == Bug && Writable(c, w0, pm[n]) { WritableStays(c, w0, before, pm[n]); }
          return;
        }
      }
      n := n + 1;
    }
    forall k, va | 0 <= k < |pm| && !Skipped(pm[k], lazyPages) && pm[k].vaddr <= va < End(pm[k]) ensures HasPrivate(c, va) {
      ImageHas(pm, lazyPages, n, k, va);
    }
    return Ok, w;
  }

  lemma LazyKeeps(files: Files, c: Ctx, w: Work, w': Work, img: Image)
    requires Inv(files, c, w, img) && w' == w.(lazy := w'.lazy)
    ensures Inv(files, c, w', img)
  {
    forall k | 0 <= k < |c.vmas| ensures AreaShape(c, w', k) { assert AreaShape(c, w, k); }
    forall k, x | InArea(c, w', k, x) ensures PageOk(files, c, w', img, k, x) { assert PageOk(files, c, w, img, k, x); }
    forall k, x ensures QueueOk(c, w', img, k, x) { assert QueueOk(c, w, img, k, x); }
  }

  /** The page at va reads as the image says, or as if never touched. */
  ghost predicate Clean(files: Files, c: Ctx, w: Work, img: Image, v: nat, va: nat)
    requires Shape(c, w) && InArea(c, w, v, va)
  {
    assert AreaShape(c, w, v);
    var cell := w.mem[w.areas[v].addr + (va - c.vmas[v].start)];
    cell.page == if va in img then img[va] else Default(files, cell.backing)
  }

  /** The areas before v, and the first i pages of area v, are clean. */
  ghost predicate CleanUpTo(files: Files, c: Ctx, w: Work, img: Image, v: nat, i: nat)
    requires Shape(c, w)
  {
    forall k: nat, x: nat {:trigger Clean(files, c, w, img, k, x)} ::
      InArea(c, w, k, x) && (k < v || (k == v && x < c.vmas[v].start + i)) ==> Clean(files, c, w, img, k, x)
  }

  /** madvise(MADV_DONTNEED) of page off of area v */
  function DropStep(files: Files, c: Ctx, w: Work, v: nat, off: nat): Work
    requires Shape(c, w) && v < |c.vmas| && w.areas[v].premapped && off < Len(c.vmas[v])
  {
    assert AreaShape(c, w, v);
    var at := w.areas[v].addr + off;
    w.(mem := w.mem[at := Untouched(files, w.mem[at].backing)])
  }

  lemma DropShape(files: Files, c: Ctx, w: Work, v: nat, off: nat, w': Work)
    requires Shape(c, w) && v < |c.vmas| && w.areas[v].premapped && off < Len(c.vmas[v]) && w' == DropStep(files, c, w, v, off)
    ensures Shape(c, w') && SameFrame(w, w')
  {
    assert AreaShape(c, w, v);
    forall k | 0 <= k < |c.vmas| ensures AreaShape(c, w', k) { assert AreaShape(c, w, k); }
  }

  lemma DropThisPage(files: Files, c: Ctx, w: Work, img: Image, v: nat, off: nat, w': Work, va: nat)
    requires Inv(files, c, w, img) && v < |c.vmas| && w.areas[v].premapped && off < Len(c.vmas[v]) && va == c.vmas[v].start + off
    requires Stray(c, w, v, off) && w' == DropStep(files, c, w, v, off) && Shape(c, w') && InArea(c, w', v, va)
    ensures PageOk(files, c, w', img, v, va) && Clean(files, c, w', img, v, va)
  {
    assert AreaShape(c, w, v);
    assert PageOk(files, c, w, img, v, va);
  }

  lemma DropOtherPage(files: Files, c: Ctx, w: Work, img: Image, v: nat, off: nat, w': Work, k: nat, x: nat)
    requires Inv(files, c, w, img) && v < |c.vmas| && w.areas[v].premapped && off < Len(c.vmas[v])
    requires w' == DropStep(files, c, w, v, off) && Shape(c, w') && InArea(c, w', k, x)
    requires k != v || x != c.vmas[v].start + off
    ensures PageOk(files, c, w', img, k, x)
    ensures Clean(files, c, w, img, k, x) ==> Clean(files, c, w', img, k, x)
  {
    assert AreaShape(c, w, v) && AreaShape(c, w, k);
    assert PageOk(files, c, w, img, k, x);
    Apart(c, w, v, c.vmas[v].start + off, k, x);
  }

  /** What dropping a stray page does to the page at x of area k. */
  lemma DropPage(files: Files, c: Ctx, w: Work, img: Image, v: nat, off: nat, w': Work, k: nat, x: nat)
    requires Inv(files, c, w, img) && v < |c.vmas| && w.areas[v].premapped && off < Len(c.vmas[v])
    requires Stray(c, w, v, off) && w' == DropStep(files, c, w, v, off) && Shape(c, w') && InArea(c, w', k, x)
    ensures PageOk(files, c, w', img, k, x)
    ensures k == v && x == c.vmas[v].start + off ==> Clean(files, c, w', img, k, x)
    ensures Clean(files, c, w, img, k, x) ==> Clean(files, c, w', img, k, x)
  {
    if k == v && x == c.vmas[v].start + off {
      DropThisPage(files, c, w, img, v, off, w', x);
    } else {
      DropOtherPage(files, c, w, img, v, off, w', k, x);
    }
  }

  /** Dropping a stray page cleans it and keeps everything else. */
  lemma DropKeeps(files: Files, c: Ctx, w: Work, img: Image, v: nat, off: nat, w': Work)
    requires Inv(files, c, w, img) && v < |c.vmas| && w.areas[v].premapped && off < Len(c.vmas[v])
    requires Stray(c, w, v, off) && w' == DropStep(files, c, w, v, off) && CleanUpTo(files, c, w, img, v, off)
    ensures Inv(files, c, w', img) && SameFrame(w, w') && CleanUpTo(files, c, w', img, v, off + 1)
  {
    DropShape(files, c, w, v, off, w');
    forall k, x | InArea(c, w', k, x) ensures PageOk(files, c, w', img, k, x) {
      DropPage(files, c, w, img, v, off, w', k, x);
    }
    forall k, x ensures QueueOk(c, w', img, k, x) { assert QueueOk(c, w, img, k, x); }
    forall k: nat, x: nat | InArea(c, w', k, x) && (k < v || (k == v && x < c.vmas[v].start + off + 1))
      ensures Clean(files, c, w', img, k, x)
    {
      DropPage(files, c, w, img, v, off, w', k, x);
      assert k < v || x < c.vmas[v].start + off ==> Clean(files, c, w, img, k, x);
    }
  }

  /** Pages that are not stray need no dropping. */
  lemma NothingToDrop(files: Files, c: Ctx, w: Work, img: Image, v: nat, i: nat, r: nat)
    requires Inv(files, c, w, img) && v < |c.vmas| && i <= r <= Len(c.vmas[v])
    requires w.areas[v].premapped ==> forall off :: i <= off < r ==> !Stray(c, w, v, off)
    requires CleanUpTo(files, c, w, img, v, i)
    ensures CleanUpTo(files, c, w, img, v, r)
  {
    forall k: nat, x: nat | InArea(c, w, k, x) && (k < v || (k == v && x < c.vmas[v].start + r)) ensures Clean(files, c, w, img, k, x) {
      assert PageOk(files, c, w, img, k, x);
      if k < v || x < c.vmas[v].start + i {
        assert Clean(files, c, w, img, k, x);
      }
    }
  }

  lemma NextArea(files: Files, c: Ctx, w: Work, img: Image, v: nat)
    requires Shape(c, w) && v < |c.vmas| && CleanUpTo(files, c, w, img, v, Len(c.vmas[v]))
    ensures CleanUpTo(files, c, w, img, v + 1, 0)
  {
  }

  method FindNextBit(bits: seq<bool>, size: nat, i: nat) returns (r: nat)
    requires i <= size <= |bits|
    ensures i <= r <= size && (forall k :: i <= k < r ==> !bits[k]) && (r < size ==> bits[r])
  {
    r := i;
    while r < size && !bits[r]
      invariant i <= r <= size && forall k :: i <= k < r ==> !bits[k]
    {
      r := r + 1;
    }
  }

  /** Drop the pages of one area that its parent has and the task has not. */
  method DropArea(files: Files, c: Ctx, w0: Work, ghost img: Image, v: nat) returns (w: Work)
    requires Inv(files, c, w0, img) && v < |c.vmas| && c.links[v].Parent? && w0.areas[v].premapped
    requires CleanUpTo(files, c, w0, img, v, 0)
    ensures Inv(files, c, w, img) && CleanUpTo(files, c, w, img, v + 1, 0) && SameFrame(w0, w)
    ensures w == w0.(mem := w.mem)
  {
    w := w0;
    assert AreaShape(c, w, v);
    var size, i, bits := Len(c.vmas[v]), 0, w.pareas[c.links[v].index].bits;
    while true
      invariant i <= size && Inv(files, c, w, img) && CleanUpTo(files, c, w, img, v, i)
      invariant w == w0.(mem := w.mem) && SameFrame(w0, w)
      decreases size - i
    {
      var r := FindNextBit(bits, size, i);
      NothingToDrop(files, c, w, img, v, i, r);
      if r >= size {
        NextArea(files, c, w, img, v);
        return;
      }
      ghost var before := w;
      w := DropStep(files, c, w, v, r);
      DropKeeps(files, c, before, img, v, r, w);
      FrameTransitive(w0, before, w);
      i := r + 1;
    }
  }

  /** The loop of restore_priv_vma_content that removes pages not shared with the child. */
  method DropStrays(files: Files, c: Ctx, w0: Work, ghost img: Image) returns (w: Work)
    requires Inv(files, c, w0, img)
    requires forall v :: 0 <= v < |c.vmas| && c.links[v].Parent? ==> w0.areas[v].premapped
    ensures Inv(files, c, w, img) && CleanUpTo(files, c, w, img, |c.vmas|, 0) && SameFrame(w0, w)
    ensures w == w0.(mem := w.mem)
  {
    w := w0;
    var v := 0;
    while v < |c.vmas|
      invariant v <= |c.vmas| && Inv(files, c, w, img) && CleanUpTo(files, c, w, img, v, 0)
      invariant w == w0.(mem := w.mem) && SameFrame(w0, w)
    {
      ghost var before := w;
      if c.links[v].Parent? {
        w := DropArea(files, c, w, img, v);
        FrameTransitive(w0, before, w);
      } else {
        NothingToDrop(files, c, w, img, v, 0, Len(c.vmas[v]));
        NextArea(files, c, w, img, v);
      }
      v := v + 1;
    }
  }
}
