/**
 Which areas of a task may share pages with its parent (criu/mem.c, criu/include/vma.h).

 Addresses count pages. The pvma pointer of an area is a Link; a pointer into the parent's list is
 an index into it.
 */
module CowLinks {

  /** A VMA entry: its range, the status bits and the mmap flags that decide its restore. */
  datatype Vma = Vma(start: nat, end: nat,
                     regular: bool, anonPrivate: bool, filePrivate: bool, aioRing: bool,
                     growsDown: bool, anonymous: bool, file: nat, pgoff: nat)

  datatype Link = NoLink | CowRoot | Parent(index: nat)

  /** vma_area_is_private */
  predicate Private(v: Vma, taskSize: nat) {
    || (v.regular && (v.anonPrivate || v.filePrivate) && v.end <= taskSize)
    || v.aioRing
  }

  /** check_cow_vmas; the equal start is checked by its caller. */
  predicate CheckCowVmas(v: Vma, p: Vma, taskSize: nat) {
    && v.end == p.end
    && Private(v, taskSize)
    && Private(p, taskSize)
    && v.growsDown == p.growsDown
    && v.anonymous == p.anonymous
    && (v.anonymous || v.file == p.file)
  }

  /** The two areas may have pages in common. */
  predicate CowPair(v: Vma, p: Vma, taskSize: nat) {
    v.start == p.start && CheckCowVmas(v, p, taskSize)
  }

  ghost predicate Sorted(vmas: seq<Vma>) {
    forall i, j :: 0 <= i < j < |vmas| ==> vmas[i].start < vmas[j].start
  }

  /** A compatible pair the merge stops at: no child area right before it is waiting for the same parent area. */
  ghost predicate Found(vmas: seq<Vma>, pvmas: seq<Vma>, taskSize: nat, i: nat, j: nat)
    requires i < |vmas| && j < |pvmas|
  {
    CowPair(vmas[i], pvmas[j], taskSize) && (i == 0 || (j > 0 && vmas[i - 1].start <= pvmas[j - 1].start))
  }

  ghost predicate Decided(vmas: seq<Vma>, pvmas: seq<Vma>, taskSize: nat, i: nat, link: Link)
    requires i < |vmas|
  {
    forall j :: 0 <= j < |pvmas| ==> (link == Parent(j) <==> Found(vmas, pvmas, taskSize, i, j))
  }

  /** Every link made joins a compatible pair. */
  ghost predicate Sound(vmas: seq<Vma>, pvmas: seq<Vma>, taskSize: nat, links: seq<Link>) {
    && |links| == |vmas|
    && forall i {:trigger links[i]} :: 0 <= i < |vmas| ==>
         || links[i] == NoLink
         || (links[i].Parent? && links[i].index < |pvmas| && CowPair(vmas[i], pvmas[links[i].index], taskSize))
  }

  /** The parent's areas that got a child: a null pvma became VMA_COW_ROOT, nothing else changed. */
  ghost predicate Rooted(links: seq<Link>, plinks0: seq<Link>, plinks: seq<Link>) {
    && |plinks| == |plinks0|
    && forall j {:trigger plinks[j]} :: 0 <= j < |plinks| ==>
         plinks[j] == if plinks0[j] == NoLink && Parent(j) in links then CowRoot else plinks0[j]
  }

  /** Where the walk is at the top of its loop: at the first parent area that does not start below the child's. */
  ghost predicate AtTop(vmas: seq<Vma>, pvmas: seq<Vma>, i: nat, j: nat)
    requires i < |vmas| && j < |pvmas|
  {
    || (i == 0 && j == 0)
    || (&& vmas[i].start <= pvmas[j].start
        && (j > 0 ==> pvmas[j - 1].start < vmas[i].start)
        && (i > 0 ==> j > 0 && vmas[i - 1].start <= pvmas[j - 1].start))
  }

  lemma RootedStep(links: seq<Link>, plinks0: seq<Link>, plinks: seq<Link>, i: nat, j: nat, links': seq<Link>, plinks': seq<Link>)
    requires i < |links| && links[i] == NoLink && j < |plinks| && Rooted(links, plinks0, plinks)
    requires links' == links[i := Parent(j)] && plinks' == if plinks[j] == NoLink then plinks[j := CowRoot] else plinks
    ensures Rooted(links', plinks0, plinks')
  {
    assert links'[i] == Parent(j);
    forall k | 0 <= k < |plinks| && k != j ensures Parent(k) in links' <==> Parent(k) in links {
      if Parent(k) in links {
        var m :| 0 <= m < |links| && links[m] == Parent(k);
        assert links'[m] == Parent(k);
      }
    }
  }

  /** A child area passed by the first inner loop has its final link. */
  lemma DecideHere(vmas: seq<Vma>, pvmas: seq<Vma>, taskSize: nat, links: seq<Link>, top: nat, i: nat, j: nat)
    requires Sorted(vmas) && Sorted(pvmas) && |links| == |vmas| && top <= i < |vmas| && j < |pvmas|
    requires AtTop(vmas, pvmas, top, j) && vmas[i].start <= pvmas[j].start
    requires links[i] == if i == top && CowPair(vmas[i], pvmas[j], taskSize) then Parent(j) else NoLink
    ensures Decided(vmas, pvmas, taskSize, i, links[i])
  {
    forall k | 0 <= k < |pvmas| ensures links[i] == Parent(k) <==> Found(vmas, pvmas, taskSize, i, k) {
      if k < j {
        assert k < j - 1 ==> pvmas[k].start < pvmas[j - 1].start;
      }
    }
  }

  /** prepare_cow_vmas_for: walk both lists once and link what matches. */
  method PrepareCowVmasFor(vmas: seq<Vma>, pvmas: seq<Vma>, taskSize: nat, plinks0: seq<Link>)
    returns (links: seq<Link>, plinks: seq<Link>)
    requires |vmas| > 0 && |pvmas| > 0 && |plinks0| == |pvmas|
    ensures Sound(vmas, pvmas, taskSize, links)
    ensures Rooted(links, plinks0, plinks)
    ensures Sorted(vmas) && Sorted(pvmas) ==>
      forall i :: 0 <= i < |vmas| ==> Decided(vmas, pvmas, taskSize, i, links[i])
  {
    ghost var sorted := Sorted(vmas) && Sorted(pvmas);
    links := seq(|vmas|, _ => NoLink);
    plinks := plinks0;
    var i, j := 0, 0;
    while true
      invariant i < |vmas| && j < |pvmas|
      invariant Sound(vmas, pvmas, taskSize, links) && Rooted(links, plinks0, plinks)
      invariant forall k :: i <= k < |vmas| ==> links[k] == NoLink
      invariant sorted ==> AtTop(vmas, pvmas, i, j) && forall k :: 0 <= k < i ==> Decided(vmas, pvmas, taskSize, k, links[k])
      decreases |vmas| - i + |pvmas| - j
    {
      if vmas[i].start == pvmas[j].start && CheckCowVmas(vmas[i], pvmas[j], taskSize) {
        ghost var before, pbefore := links, plinks;
        links := links[i := Parent(j)];
        if plinks[j] == NoLink {
          plinks := plinks[j := CowRoot];
        }
        RootedStep(before, plinks0, pbefore, i, j, links, plinks);
      }
      ghost var top := i;
      while vmas[i].start <= pvmas[j].start
        invariant top <= i < |vmas|
        invariant forall k :: top < k < |vmas| ==> links[k] == NoLink
        invariant links[top] == if CowPair(vmas[top], pvmas[j], taskSize) then Parent(j) else NoLink
        invariant top < i ==> vmas[i - 1].start <= pvmas[j].start
        invariant sorted ==> forall k :: 0 <= k < i ==> Decided(vmas, pvmas, taskSize, k, links[k])
        decreases |vmas| - i
      {
        if sorted { DecideHere(vmas, pvmas, taskSize, links, top, i, j); }
        i := i + 1;
        if i == |vmas| {
          return;
        }
      }
      ghost var from := j;
      while pvmas[j].start < vmas[i].start
        invariant from <= j < |pvmas|
        invariant from < j ==> pvmas[j - 1].start < vmas[i].start
        decreases |pvmas| - j
      {
        j := j + 1;
        if j == |pvmas| {
          if sorted {
            forall k | i <= k < |vmas| ensures Decided(vmas, pvmas, taskSize, k, links[k]) { }
          }
          return;
        }
      }
    }
  }

  /** A parent area starts at or after the child area before i, and below area i. */
  ghost predicate SomethingBetween(vmas: seq<Vma>, pvmas: seq<Vma>, i: nat)
    requires 0 < i < |vmas|
  {
    exists k :: 0 <= k < |pvmas| && vmas[i - 1].start <= pvmas[k].start < vmas[i].start
  }

  /** Exactly which compatible pairs the merge finds. */
  lemma FoundExactlyWhen(vmas: seq<Vma>, pvmas: seq<Vma>, taskSize: nat, i: nat, j: nat)
    requires Sorted(vmas) && Sorted(pvmas) && i < |vmas| && j < |pvmas| && CowPair(vmas[i], pvmas[j], taskSize)
    ensures Found(vmas, pvmas, taskSize, i, j) <==> i == 0 || SomethingBetween(vmas, pvmas, i)
  {
    if i > 0 && SomethingBetween(vmas, pvmas, i) {
      var k :| 0 <= k < |pvmas| && vmas[i - 1].start <= pvmas[k].start < vmas[i].start;
      assert k < j;
      assert k < j - 1 ==> pvmas[k].start < pvmas[j - 1].start;
    }
  }

  /** When every child area starts where some parent area does, no compatible pair is missed. */
  lemma AllFound(vmas: seq<Vma>, pvmas: seq<Vma>, taskSize: nat, i: nat, j: nat)
    requires Sorted(vmas) && Sorted(pvmas) && i < |vmas| && j < |pvmas| && CowPair(vmas[i], pvmas[j], taskSize)
    requires forall m :: 0 <= m < |vmas| ==> exists k :: 0 <= k < |pvmas| && vmas[m].start == pvmas[k].start
    ensures Found(vmas, pvmas, taskSize, i, j)
  {
    FoundExactlyWhen(vmas, pvmas, taskSize, i, j);
    if i > 0 {
      var k :| 0 <= k < |pvmas| && vmas[i - 1].start == pvmas[k].start;
      assert SomethingBetween(vmas, pvmas, i);
    }
  }

  function AnonArea(start: nat, end: nat): Vma {
    Vma(start, end, true, true, false, false, false, true, 0, 0)
  }

  /** In general a pair can be stepped over: the child's area at 5 is passed together with the one at 0. */
  lemma PairSteppedOver()
    ensures var vmas, pvmas := [AnonArea(0, 2), AnonArea(5, 7)], [AnonArea(5, 7)];
            Sorted(vmas) && Sorted(pvmas) && CowPair(vmas[1], pvmas[0], 100) && !Found(vmas, pvmas, 100, 1, 0)
  {
  }

  /** Two areas of one task never get the same parent area. */
  lemma LinksAreInjective(vmas: seq<Vma>, pvmas: seq<Vma>, taskSize: nat, links: seq<Link>, i: nat, k: nat)
    requires Sound(vmas, pvmas, taskSize, links) && (forall m, n :: 0 <= m < n < |vmas| ==> vmas[m].start != vmas[n].start)
    requires i < |links| && k < |links| && links[i].Parent? && links[i] == links[k]
    ensures i == k
  {
    assert vmas[i].start == vmas[k].start;
  }

  /** A task of the tree: its areas (none for a zombie), its executable and the index of its parent. */
  datatype Task = Task(vmas: seq<Vma>, exe: nat, parent: int)

  /** Tasks are listed parents first; the root has parent -1. */
  ghost predicate ParentsFirst(tasks: seq<Task>) {
    forall t :: 0 <= t < |tasks| ==> -1 <= tasks[t].parent < t
  }

  /** prepare_cow_vmas looks at this task. */
  predicate HasCowParent(tasks: seq<Task>, t: nat)
    requires t < |tasks| && -1 <= tasks[t].parent < t
  {
    && tasks[t].parent >= 0
    && |tasks[t].vmas| != 0
    && |tasks[tasks[t].parent].vmas| != 0
    && tasks[t].exe == tasks[tasks[t].parent].exe
  }

  /** The link of area i of task t is right: it names a compatible area of the parent, and that area is marked. */
  ghost predicate LinkOk(tasks: seq<Task>, taskSize: nat, links: seq<seq<Link>>, t: nat, i: nat)
    requires t < |tasks| == |links| && |links[t]| == |tasks[t].vmas| && i < |links[t]| && -1 <= tasks[t].parent < t
  {
    links[t][i].Parent? ==>
      && HasCowParent(tasks, t)
      && var p, j := tasks[t].parent, links[t][i].index;
      && j < |tasks[p].vmas| && j < |links[p]|
      && CowPair(tasks[t].vmas[i], tasks[p].vmas[j], taskSize)
      && links[p][j] != NoLink
  }

  ghost predicate LinksOk(tasks: seq<Task>, taskSize: nat, links: seq<seq<Link>>)
    requires ParentsFirst(tasks)
  {
    && |links| == |tasks|
    && (forall t :: 0 <= t < |tasks| ==> |links[t]| == |tasks[t].vmas|)
    && forall t, i :: 0 <= t < |tasks| && 0 <= i < |links[t]| ==> LinkOk(tasks, taskSize, links, t, i)
  }

  /** The links of task t are what the merge of its list with its parent's finds. */
  ghost predicate Merged(tasks: seq<Task>, taskSize: nat, links: seq<seq<Link>>, t: nat)
    requires ParentsFirst(tasks) && t < |tasks| == |links| && |links[t]| == |tasks[t].vmas|
  {
    HasCowParent(tasks, t) ==>
      var pvmas := tasks[tasks[t].parent].vmas;
      Sorted(tasks[t].vmas) && Sorted(pvmas) ==>
        forall i :: 0 <= i < |tasks[t].vmas| ==> Decided(tasks[t].vmas, pvmas, taskSize, i, links[t][i])
  }

  /** Linking task t keeps every link right. */
  lemma LinkTask(tasks: seq<Task>, taskSize: nat, links: seq<seq<Link>>, t: nat, mine: seq<Link>, theirs: seq<Link>, links': seq<seq<Link>>)
    requires ParentsFirst(tasks) && LinksOk(tasks, taskSize, links) && t < |tasks| && HasCowParent(tasks, t)
    requires forall i :: 0 <= i < |links[t]| ==> links[t][i] == NoLink
    requires Sound(tasks[t].vmas, tasks[tasks[t].parent].vmas, taskSize, mine)
    requires Rooted(mine, links[tasks[t].parent], theirs)
    requires links' == links[tasks[t].parent := theirs][t := mine]
    ensures LinksOk(tasks, taskSize, links')
  {
    forall k, i | 0 <= k < |tasks| && 0 <= i < |links'[k]| ensures LinkOk(tasks, taskSize, links', k, i) {
      if k != t {
        assert LinkOk(tasks, taskSize, links, k, i);
        assert links'[k][i].Parent? ==> links'[k][i] == links[k][i];
      } else if mine[i].Parent? {
        assert mine[i] in mine;
      }
    }
  }

  lemma MergedStays(tasks: seq<Task>, taskSize: nat, links: seq<seq<Link>>, links': seq<seq<Link>>, t: nat)
    requires ParentsFirst(tasks) && t < |tasks| == |links| == |links'| && |links[t]| == |links'[t]| == |tasks[t].vmas|
    requires forall i :: 0 <= i < |links[t]| ==> links'[t][i] == links[t][i] || (links[t][i] == NoLink && links'[t][i] == CowRoot)
    requires Merged(tasks, taskSize, links, t)
    ensures Merged(tasks, taskSize, links', t)
  {
    if HasCowParent(tasks, t) {
      var pvmas := tasks[tasks[t].parent].vmas;
      if Sorted(tasks[t].vmas) && Sorted(pvmas) {
        forall i | 0 <= i < |tasks[t].vmas| ensures Decided(tasks[t].vmas, pvmas, taskSize, i, links'[t][i]) {
          assert Decided(tasks[t].vmas, pvmas, taskSize, i, links[t][i]);
        }
      }
    }
  }

  /** prepare_cow_vmas: link every task of the tree to its parent. */
  method PrepareCowVmas(tasks: seq<Task>, taskSize: nat) returns (links: seq<seq<Link>>)
    requires ParentsFirst(tasks)
    ensures LinksOk(tasks, taskSize, links)
    ensures forall t :: 0 <= t < |tasks| ==> Merged(tasks, taskSize, links, t)
  {
    links := seq(|tasks|, t requires 0 <= t < |tasks| => seq(|tasks[t].vmas|, _ => NoLink));
    var t := 0;
    while t < |tasks|
      invariant t <= |tasks| && LinksOk(tasks, taskSize, links)
      invariant forall k :: 0 <= k < t ==> Merged(tasks, taskSize, links, k)
      invariant forall k, i :: t <= k < |tasks| && 0 <= i < |links[k]| ==> links[k][i] == NoLink
    {
      if HasCowParent(tasks, t) {
        var p := tasks[t].parent;
        var mine, theirs := PrepareCowVmasFor(tasks[t].vmas, tasks[p].vmas, taskSize, links[p]);
        ghost var before := links;
        links := links[p := theirs][t := mine];
        LinkTask(tasks, taskSize, before, t, mine, theirs, links);
        forall k | 0 <= k < t ensures Merged(tasks, taskSize, links, k) {
          MergedStays(tasks, taskSize, before, links, k);
        }
      }
      t := t + 1;
    }
  }
}
