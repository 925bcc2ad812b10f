/**
 Numbering and compacting the targets of an epoll descriptor (criu/eventpoll.c).

 qsort is any sort: the result holds the same elements, in the comparator's order.
 */
module EpollTargets {

  /** A comparator as "not greater"; it compares any two elements, and transitively. */
  ghost predicate Total<T(!new)>(le: (T, T) -> bool) {
    (forall a, b :: le(a, b) || le(b, a)) && Transitive(le)
  }

  ghost predicate Transitive<T(!new)>(le: (T, T) -> bool) {
    forall a, b, c :: le(a, b) && le(b, c) ==> le(a, c)
  }

  ghost predicate SortedBy<T>(s: seq<T>, le: (T, T) -> bool) {
    forall i, j :: 0 <= i < j < |s| ==> le(s[i], s[j])
  }

  method QSort<T(!new)>(s: seq<T>, le: (T, T) -> bool) returns (r: seq<T>)
    requires Total(le)
    ensures multiset(r) == multiset(s) && |r| == |s| && SortedBy(r, le)
  {
    r := [];
    var i := 0;
    while i < |s|
      invariant i <= |s| && multiset(r) == multiset(s[..i]) && |r| == i && SortedBy(r, le)
    {
      r := Insert(r, s[i], le);
      assert s[..i + 1] == s[..i] + [s[i]];
      i := i + 1;
    }
    assert s[..i] == s;
  }

  method Insert<T(!new)>(s: seq<T>, x: T, le: (T, T) -> bool) returns (r: seq<T>)
    requires Total(le) && SortedBy(s, le)
    ensures multiset(r) == multiset(s) + multiset{x} && |r| == |s| + 1 && SortedBy(r, le)
  {
    var k := |s|;
    while k > 0 && !le(s[k - 1], x)
      invariant 0 <= k <= |s| && forall i :: k <= i < |s| ==> le(x, s[i])
    {
      k := k - 1;
    }
    r := s[..k] + [x] + s[k..];
    InsertAt(s, x, le, k, r);
    assert s == s[..k] + s[k..];
  }

  lemma InsertAt<T(!new)>(s: seq<T>, x: T, le: (T, T) -> bool, k: nat, r: seq<T>)
    requires Transitive(le) && SortedBy(s, le) && k <= |s| && (k > 0 ==> le(s[k - 1], x)) && (forall i :: k <= i < |s| ==> le(x, s[i]))
    requires r == s[..k] + [x] + s[k..]
    ensures SortedBy(r, le)
  {
    forall i | 0 <= i < k ensures le(s[i], x) {
      assert i < k - 1 ==> le(s[i], s[k - 1]);
    }
    forall i, j | 0 <= i < j < |r| ensures le(r[i], r[j]) {
      assert r[i] == if i < k then s[i] else if i == k then x else s[i - 1];
      assert r[j] == if j < k then s[j] else if j == k then x else s[j - 1];
    }
  }

  /** toff_t: the position in the list of targets, the target and its number among equal targets. */
  datatype Toff = Toff(idx: nat, tfd: int, off: nat)

  /** toff_cmp */
  predicate ByTfd(a: Toff, b: Toff) { a.tfd < b.tfd || (a.tfd == b.tfd && a.idx <= b.idx) }

  /** toff_cmp_idx */
  predicate ByIdx(a: Toff, b: Toff) { a.idx <= b.idx }

  /** How many of the elements have this target and a smaller position. */
  ghost function Count(s: seq<Toff>, tfd: int, idx: nat): nat {
    if s == [] then 0
    else Count(s[..|s| - 1], tfd, idx) + if s[|s| - 1].tfd == tfd && s[|s| - 1].idx < idx then 1 else 0
  }

  /** How many earlier entries of the list have the same target as entry i. */
  ghost function Earlier(tfds: seq<int>, i: nat, n: nat): nat
    requires n <= i < |tfds|
  {
    if n == 0 then 0 else Earlier(tfds, i, n - 1) + if tfds[n - 1] == tfds[i] then 1 else 0
  }

  lemma {:induction false} CountSplit(a: seq<Toff>, b: seq<Toff>, tfd: int, idx: nat)
    ensures Count(a + b, tfd, idx) == Count(a, tfd, idx) + Count(b, tfd, idx)
    decreases |b|
  {
    if b == [] {
      assert a + b == a;
    } else {
      assert (a + b)[..|a + b| - 1] == a + b[..|b| - 1];
      CountSplit(a, b[..|b| - 1], tfd, idx);
    }
  }

  ghost function Hit(x: Toff, tfd: int, idx: nat): nat { if x.tfd == tfd && x.idx < idx then 1 else 0 }

  lemma CountOne(x: Toff, tfd: int, idx: nat)
    ensures Count([x], tfd, idx) == Hit(x, tfd, idx)
  {
    assert [x][..0] == [];
  }

  ghost function Without<T>(s: seq<T>, k: nat): (r: seq<T>)
    requires k < |s|
    ensures |r| == |s| - 1
  {
    s[..k] + s[k + 1..]
  }

  lemma CountWithout(s: seq<Toff>, k: nat, tfd: int, idx: nat)
    requires k < |s|
    ensures Count(s, tfd, idx) == Count(Without(s, k), tfd, idx) + Hit(s[k], tfd, idx)
  {
    CountSplit(s[..k], s[k + 1..], tfd, idx);
    CountSplit(s[..k] + [s[k]], s[k + 1..], tfd, idx);
    CountSplit(s[..k], [s[k]], tfd, idx);
    CountOne(s[k], tfd, idx);
    assert s == s[..k] + [s[k]] + s[k + 1..];
  }

  lemma MultisetWithout<T>(s: seq<T>, k: nat)
    requires k < |s|
    ensures multiset(Without(s, k)) == multiset(s) - multiset{s[k]}
  {
    assert s == s[..k] + [s[k]] + s[k + 1..];
  }

  /** The same element taken out of two arrangements. */
  lemma BothWithout(a: seq<Toff>, b: seq<Toff>) returns (k: nat)
    requires multiset(a) == multiset(b) && a != []
    ensures k < |b| && b[k] == a[0] && multiset(Without(a, 0)) == multiset(Without(b, k))
  {
    assert a[0] in multiset(b);
    k :| 0 <= k < |b| && b[k] == a[0];
    MultisetWithout(a, 0);
    MultisetWithout(b, k);
  }

  /** Counting does not depend on the order. */
  lemma {:induction false} CountPermuted(a: seq<Toff>, b: seq<Toff>, tfd: int, idx: nat)
    requires multiset(a) == multiset(b)
    ensures Count(a, tfd, idx) == Count(b, tfd, idx)
    decreases |a|
  {
    if a == [] {
      assert |multiset(b)| == 0;
    } else {
      var k := BothWithout(a, b);
      CountWithout(a, 0, tfd, idx);
      CountWithout(b, k, tfd, idx);
      CountPermuted(Without(a, 0), Without(b, k), tfd, idx);
    }
  }

  ghost function Numbered0(tfds: seq<int>): seq<Toff> {
    seq(|tfds|, i requires 0 <= i < |tfds| => Toff(i, tfds[i], 0))
  }

  lemma {:induction false} CountIsEarlier(tfds: seq<int>, i: nat, n: nat)
    requires i < |tfds| && n <= |tfds|
    ensures Count(Numbered0(tfds)[..n], tfds[i], i) == Earlier(tfds, i, if n < i then n else i)
  {
    var s := Numbered0(tfds);
    if n > 0 {
      CountIsEarlier(tfds, i, n - 1);
      assert s[..n][..n - 1] == s[..n - 1];
    }
  }

  ghost predicate DistinctIdx(s: seq<Toff>) {
    forall i, j :: 0 <= i < j < |s| ==> s[i].idx != s[j].idx
  }

  lemma TwoOccurrences<T>(s: seq<T>, i: nat, j: nat)
    requires i < j < |s| && s[i] == s[j]
    ensures multiset(s)[s[i]] >= 2
  {
    var x := s[i];
    assert s == s[..i] + [x] + s[i + 1..j] + [x] + s[j + 1..];
    assert multiset(s) == multiset(s[..i]) + multiset{x} + multiset(s[i + 1..j]) + multiset{x} + multiset(s[j + 1..]);
  }

  lemma {:induction false} OnceEach(s: seq<Toff>, x: Toff)
    requires DistinctIdx(s)
    ensures multiset(s)[x] <= 1
  {
    if s != [] {
      var front, last := s[..|s| - 1], s[|s| - 1];
      assert s == front + [last];
      OnceEach(front, x);
      if x == last {
        assert x !in front;
      }
    }
  }

  /** The entries before numbering, in any order. */
  lemma Permuted(tfds: seq<int>, s: seq<Toff>)
    requires multiset(s) == multiset(Numbered0(tfds))
    ensures |s| == |tfds| && DistinctIdx(s)
    ensures forall j :: 0 <= j < |s| ==> s[j].idx < |tfds| && s[j] == Toff(s[j].idx, tfds[s[j].idx], 0)
  {
    var init := Numbered0(tfds);
    assert |s| == |multiset(s)| == |multiset(init)| == |init|;
    forall j | 0 <= j < |s| ensures s[j].idx < |tfds| && s[j] == Toff(s[j].idx, tfds[s[j].idx], 0) {
      assert s[j] in multiset(s) && s[j] in multiset(init);
    }
    forall i, j | 0 <= i < j < |s| ensures s[i].idx != s[j].idx {
      OnceEach(init, s[i]);
      if s[i] == s[j] { TwoOccurrences(s, i, j); }
    }
  }

  lemma {:induction false} CountZero(s: seq<Toff>, tfd: int, idx: nat)
    requires forall i :: 0 <= i < |s| ==> s[i].tfd != tfd || s[i].idx >= idx
    ensures Count(s, tfd, idx) == 0
  {
    if s != [] { CountZero(s[..|s| - 1], tfd, idx); }
  }

  lemma {:induction false} CountSame(s: seq<Toff>, tfd: int, a: nat, b: nat)
    requires forall i :: 0 <= i < |s| && s[i].tfd == tfd ==> (s[i].idx < a <==> s[i].idx < b)
    ensures Count(s, tfd, a) == Count(s, tfd, b)
  {
    if s != [] { CountSame(s[..|s| - 1], tfd, a, b); }
  }

  /** In the sorted list, the number of an entry is how many stand before it in its run. */
  ghost function Pos(s: seq<Toff>, j: nat): nat
    requires j < |s|
  {
    Count(s[..j], s[j].tfd, s[j].idx)
  }

  lemma PosStep(s: seq<Toff>, j: nat)
    requires 0 < j < |s| && SortedBy(s, ByTfd) && DistinctIdx(s)
    ensures Pos(s, j) == if s[j].tfd == s[j - 1].tfd then Pos(s, j - 1) + 1 else 0
  {
    forall i | 0 <= i < j ensures ByTfd(s[i], s[j]) && s[i].idx != s[j].idx && (i < j - 1 ==> ByTfd(s[i], s[j - 1]) && s[i].idx != s[j - 1].idx) { }
    if s[j].tfd == s[j - 1].tfd {
      assert s[..j][..j - 1] == s[..j - 1];
      CountSame(s[..j - 1], s[j].tfd, s[j].idx, s[j - 1].idx);
    } else {
      CountZero(s[..j], s[j].tfd, s[j].idx);
    }
  }

  lemma PosIsCount(s: seq<Toff>, j: nat)
    requires j < |s| && SortedBy(s, ByTfd) && DistinctIdx(s)
    ensures Pos(s, j) == Count(s, s[j].tfd, s[j].idx)
  {
    forall i | j <= i < |s| ensures s[i].tfd != s[j].tfd || s[i].idx >= s[j].idx {
      assert i > j ==> ByTfd(s[j], s[i]);
    }
    CountZero(s[j..], s[j].tfd, s[j].idx);
    CountSplit(s[..j], s[j..], s[j].tfd, s[j].idx);
    assert s == s[..j] + s[j..];
  }

  lemma {:induction false} AtLeast(s: seq<Toff>, i: nat)
    requires i < |s| && SortedBy(s, ByIdx) && DistinctIdx(s)
    ensures s[i].idx >= i
  {
    if i > 0 {
      AtLeast(s, i - 1);
      assert ByIdx(s[i - 1], s[i]);
    }
  }

  lemma {:induction false} AtMost(s: seq<Toff>, i: nat)
    requires i < |s| && SortedBy(s, ByIdx) && DistinctIdx(s) && forall k :: 0 <= k < |s| ==> s[k].idx < |s|
    ensures s[i].idx <= i
    decreases |s| - i
  {
    if i + 1 < |s| {
      AtMost(s, i + 1);
      assert ByIdx(s[i], s[i + 1]);
    }
  }

  /** s with every entry numbered by its place in its run. */
  ghost predicate RunNumbers(s: seq<Toff>, n: seq<Toff>, upto: nat) {
    && |n| == |s|
    && forall j {:trigger n[j]} :: 0 <= j < |s| ==> n[j] == s[j].(off := if j < upto then Pos(s, j) else 0)
  }

  /** The numbering of dump_one_eventpoll: entry i gets the number of earlier entries with the same target. */
  method NumberTargets(tfds: seq<int>) returns (toff: seq<Toff>)
    ensures |toff| == |tfds|
    ensures forall i {:trigger toff[i]} :: 0 <= i < |tfds| ==> toff[i] == Toff(i, tfds[i], Earlier(tfds, i, i))
  {
    toff := [];
    var i := 0;
    while i < |tfds|
      invariant i <= |tfds| && toff == Numbered0(tfds)[..i]
    {
      toff := toff + [Toff(i, tfds[i], 0)];
      i := i + 1;
    }
    assert toff == Numbered0(tfds);
    ghost var s;
    toff := QSort(toff, ByTfd);
    s := toff;
    Permuted(tfds, s);
    i := 1;
    assert |s| > 0 ==> Pos(s, 0) == 0 && s[..0] == [];
    while i < |toff|
      invariant 1 <= i && RunNumbers(s, toff, i)
    {
      PosStep(s, i);
      if toff[i].tfd == toff[i - 1].tfd {
        toff := toff[i := toff[i].(off := toff[i - 1].off + 1)];
      }
      i := i + 1;
    }
    ghost var n := toff;
    toff := QSort(toff, ByIdx);
    Finish(tfds, s, n, toff);
  }

  lemma StillDistinct(n: seq<Toff>, r: seq<Toff>)
    requires DistinctIdx(n) && multiset(r) == multiset(n)
    ensures DistinctIdx(r)
  {
    forall i, j | 0 <= i < j < |r| ensures r[i].idx != r[j].idx {
      var a := FromN(n, r, i);
      var b := FromN(n, r, j);
      OnceEach(n, r[i]);
      if r[i] == r[j] { TwoOccurrences(r, i, j); }
    }
  }

  lemma FinishOne(tfds: seq<int>, s: seq<Toff>, j: nat, i: nat)
    requires multiset(s) == multiset(Numbered0(tfds)) && SortedBy(s, ByTfd) && j < |s| && s[j].idx == i
    ensures i < |tfds| && s[j].tfd == tfds[i] && Pos(s, j) == Earlier(tfds, i, i)
  {
    Permuted(tfds, s);
    PosIsCount(s, j);
    CountPermuted(s, Numbered0(tfds), tfds[i], i);
    CountIsEarlier(tfds, i, |tfds|);
    assert Numbered0(tfds)[..|tfds|] == Numbered0(tfds);
  }

  lemma Finish(tfds: seq<int>, s: seq<Toff>, n: seq<Toff>, r: seq<Toff>)
    requires multiset(s) == multiset(Numbered0(tfds)) && SortedBy(s, ByTfd) && RunNumbers(s, n, |s|)
    requires multiset(r) == multiset(n) && |r| == |n| && SortedBy(r, ByIdx)
    ensures |r| == |tfds| && forall i {:trigger r[i]} :: 0 <= i < |tfds| ==> r[i] == Toff(i, tfds[i], Earlier(tfds, i, i))
  {
    Permuted(tfds, s);
    forall i, j | 0 <= i < j < |n| ensures n[i].idx != n[j].idx { assert n[i].idx == s[i].idx && n[j].idx == s[j].idx; }
    StillDistinct(n, r);
    forall k | 0 <= k < |r| ensures r[k].idx < |r| { var a := FromN(n, r, k); }
    forall i | 0 <= i < |tfds| ensures r[i] == Toff(i, tfds[i], Earlier(tfds, i, i)) {
      AtLeast(r, i);
      AtMost(r, i);
      var j := FromN(n, r, i);
      FinishOne(tfds, s, j, i);
    }
  }

  lemma FromN(n: seq<Toff>, r: seq<Toff>, i: nat) returns (j: nat)
    requires multiset(r) == multiset(n) && i < |r|
    ensures j < |n| && n[j] == r[i]
  {
    assert r[i] in multiset(n);
    j :| 0 <= j < |n| && n[j] == r[i];
  }

  /** A target entry: descriptor, task, and the rest of the record. */
  datatype Target = Target(tfd: int, pid: int, other: nat)

  /** etfd_cmp: descriptors ascending, tasks descending. */
  function Compare(a: Target, b: Target): int {
    if a.tfd > b.tfd then 1 else if a.tfd < b.tfd then -1
    else if a.pid < b.pid then 1 else if a.pid > b.pid then -1 else 0
  }

  predicate NotAfter(a: Target, b: Target) { Compare(a, b) <= 0 }

  predicate SameTarget(a: Target, b: Target) { a.tfd == b.tfd && a.pid == b.pid }

  ghost predicate Holds(s: seq<Target>, n: nat, x: Target)
    requires n <= |s|
  {
    exists k :: 0 <= k < n && SameTarget(s[k], x)
  }

  ghost predicate Increasing(a: seq<Target>, j: nat)
    requires j <= |a|
  {
    forall k, l {:trigger Compare(a[k], a[l])} :: 0 <= k < l < j ==> Compare(a[k], a[l]) < 0
  }

  ghost predicate From(s: seq<Target>, a: seq<Target>, j: nat)
    requires j <= |a|
  {
    forall k {:trigger a[k]} :: 0 <= k < j ==> a[k] in s
  }

  ghost predicate Covers(s: seq<Target>, a: seq<Target>, i: nat, j: nat)
    requires i <= |s| && j <= |a|
  {
    forall k {:trigger Holds(a, j, s[k])} :: 0 <= k < i ==> Holds(a, j, s[k])
  }

  /** The first j elements of a keep one of each target among the first i of the sorted s. */
  ghost predicate Compacted(s: seq<Target>, a: seq<Target>, i: nat, j: nat) {
    && 1 <= j <= i <= |s| == |a|
    && (forall k {:trigger a[k]} :: i - 1 <= k < |s| ==> a[k] == s[k])
    && SameTarget(a[j - 1], s[i - 1])
    && Increasing(a, j) && From(s, a, j) && Covers(s, a, i, j)
  }

  lemma HoldsStays(a: seq<Target>, a': seq<Target>, j: nat, j': nat, x: Target)
    requires j <= j' <= |a| == |a'| && Holds(a, j, x) && forall k :: 0 <= k < j ==> a'[k] == a[k]
    ensures Holds(a', j', x)
  {
    var m :| 0 <= m < j && SameTarget(a[m], x);
    assert SameTarget(a'[m], x);
  }

  lemma CoverOne(s: seq<Target>, a: seq<Target>, i: nat, j: nat, a': seq<Target>, j': nat)
    requires i < |s| && 1 <= j <= j' <= |a| == |a'| && Covers(s, a, i, j) && (forall k :: 0 <= k < j ==> a'[k] == a[k])
    requires SameTarget(a'[j' - 1], s[i])
    ensures Covers(s, a', i + 1, j')
  {
    forall k | 0 <= k < i + 1 ensures Holds(a', j', s[k]) {
      if k < i {
        HoldsStays(a, a', j, j', s[k]);
      }
    }
  }

  lemma IncreaseOne(a: seq<Target>, j: nat, x: Target, a': seq<Target>)
    requires 1 <= j < |a| && Increasing(a, j) && Compare(a[j - 1], x) < 0 && a' == a[j := x]
    ensures Increasing(a', j + 1)
  {
    forall k, l | 0 <= k < l < j + 1 ensures Compare(a'[k], a'[l]) < 0 {
      if l < j {
        assert Compare(a[k], a[l]) < 0;
      } else if k < j - 1 {
        assert Compare(a[k], a[j - 1]) < 0;
      }
    }
  }

  lemma SkipSame(s: seq<Target>, a: seq<Target>, i: nat, j: nat)
    requires i < |s| && Compacted(s, a, i, j) && Compare(a[i], a[i - 1]) == 0
    ensures Compacted(s, a, i + 1, j)
  {
    assert a[i - 1] == s[i - 1] && a[i] == s[i];
    CoverOne(s, a, i, j, a, j);
  }

  lemma KeepNext(s: seq<Target>, a: seq<Target>, i: nat, j: nat, a': seq<Target>)
    requires 0 < i < |s| && NotAfter(s[i - 1], s[i]) && Compacted(s, a, i, j) && Compare(a[i], a[i - 1]) != 0 && a' == a[j := a[i]]
    ensures Compacted(s, a', i + 1, j + 1)
  {
    assert a[i - 1] == s[i - 1] && a[i] == s[i];
    IncreaseOne(a, j, a[i], a');
    CoverOne(s, a, i, j, a', j + 1);
  }

  method Move(tfd: array<Target>, i: nat, j: nat)
    requires i < tfd.Length && j < tfd.Length
    modifies tfd
    ensures tfd[..] == old(tfd[..])[j := old(tfd[..])[i]]
  {
    tfd[j] := tfd[i];
  }

  lemma CompactStart(s: seq<Target>)
    requires |s| > 0
    ensures Compacted(s, s, 1, 1)
  {
    assert SameTarget(s[0], s[0]);
  }

  ghost predicate OrderedAt(s: seq<Target>, k: nat)
    requires 0 < k < |s|
  {
    NotAfter(s[k - 1], s[k])
  }

  ghost predicate Ordered(s: seq<Target>) {
    forall k {:trigger OrderedAt(s, k)} :: 0 < k < |s| ==> OrderedAt(s, k)
  }

  lemma CompactStep(s: seq<Target>, a: seq<Target>, i: nat, j: nat)
    requires Ordered(s) && i < |s| && Compacted(s, a, i, j)
    ensures Compare(a[i], a[i - 1]) == 0 ==> Compacted(s, a, i + 1, j)
    ensures Compare(a[i], a[i - 1]) != 0 ==> Compacted(s, a[j := a[i]], i + 1, j + 1)
  {
    if Compare(a[i], a[i - 1]) == 0 {
      SkipSame(s, a, i, j);
    } else {
      assert OrderedAt(s, i);
      KeepNext(s, a, i, j, a[j := a[i]]);
    }
  }

  /** The loop that drops targets equal to the one before, in place. */
  method Compact(tfd: array<Target>) returns (j: nat)
    requires tfd.Length > 0 && Ordered(tfd[..])
    modifies tfd
    ensures j <= tfd.Length && Compacted(old(tfd[..]), tfd[..], tfd.Length, j)
  {
    ghost var s := tfd[..];
    ghost var a := s;
    var i := 1;
    j := 1;
    CompactStart(s);
    while i < tfd.Length
      invariant 1 <= i <= tfd.Length && 1 <= j <= i && a == tfd[..] && Compacted(s, a, i, j)
    {
      CompactStep(s, a, i, j);
      if Compare(tfd[i], tfd[i - 1]) != 0 {
        Move(tfd, i, j);
        a, j := a[j := a[i]], j + 1;
      }
      i := i + 1;
    }
  }

  /** memcpy into the array */
  method CopyIn(tfd: array<Target>, s: seq<Target>)
    requires |s| == tfd.Length
    modifies tfd
    ensures tfd[..] == s
  {
    forall k | 0 <= k < |s| { tfd[k] := s[k]; }
  }

  /** Sort and compact: one entry per distinct target is written, and the array is put back as it was. */
  method FlushTargets(tfd: array<Target>) returns (written: seq<Target>)
    modifies tfd
    ensures tfd[..] == old(tfd[..])
    ensures Increasing(written, |written|)
    ensures forall k {:trigger written[k]} :: 0 <= k < |written| ==> written[k] in old(tfd[..])
    ensures forall x {:trigger Holds(written, |written|, x)} :: x in old(tfd[..]) ==> Holds(written, |written|, x)
  {
    if tfd.Length == 0 {
      return [];
    }
    var copy := tfd[..];
    var sorted := QSort(copy, NotAfter);
    CopyIn(tfd, sorted);
    var j := Compact(tfd);
    written := tfd[..j];
    Written(copy, sorted, tfd[..], tfd.Length, j, written);
    CopyIn(tfd, copy);
  }

  lemma Written(copy: seq<Target>, s: seq<Target>, a: seq<Target>, n: nat, j: nat, written: seq<Target>)
    requires n == |s| && Compacted(s, a, n, j) && multiset(s) == multiset(copy) && written == a[..j]
    ensures Increasing(written, |written|)
    ensures forall k {:trigger written[k]} :: 0 <= k < |written| ==> written[k] in copy
    ensures forall x {:trigger Holds(written, |written|, x)} :: x in copy ==> Holds(written, |written|, x)
  {
    forall k, l | 0 <= k < l < j ensures Compare(written[k], written[l]) < 0 { assert Compare(a[k], a[l]) < 0; }
    forall k | 0 <= k < |written| ensures written[k] in copy {
      assert a[k] in s;
      assert a[k] in multiset(s);
    }
    forall x | x in copy ensures Holds(written, |written|, x) {
      assert x in multiset(s);
      var k :| 0 <= k < |s| && s[k] == x;
      assert Holds(a, j, s[k]);
      var m :| 0 <= m < j && SameTarget(a[m], x);
      assert written[m] == a[m];
    }
  }
}
