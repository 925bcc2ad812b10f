/**
 Replaying inotify watches so that they get their old numbers (criu/fsnotify.c).

 The kernel gives a new watch the next higher number and knows one watch per inode; numbers start at 1.
 The route is the one without INOTIFY_IOC_SETNEXTWD.
 */
module InotifyReplay {

  datatype Mark = Mark(wd: nat, inode: nat)

  datatype Kernel = Kernel(watches: map<nat, nat>, next: nat)

  const FRESH := Kernel(map[], 1)

  /** inotify_add_watch */
  function AddWatch(k: Kernel, inode: nat): (Kernel, nat) {
    if inode in k.watches then (k, k.watches[inode])
    else (Kernel(k.watches[inode := k.next], k.next + 1), k.next)
  }

  /** inotify_rm_watch of the watch an inode has */
  function RmWatch(k: Kernel, inode: nat): Kernel { k.(watches := k.watches - {inode}) }

  ghost predicate Ascending(ms: seq<Mark>) {
    forall i, j :: 0 <= i < j < |ms| ==> ms[i].wd <= ms[j].wd
  }

  /** __collect_inotify_mark: before the first mark with a higher number. */
  method CollectMark(ms: seq<Mark>, m: Mark) returns (r: seq<Mark>)
    requires Ascending(ms)
    ensures Ascending(r) && multiset(r) == multiset(ms) + multiset{m}
  {
    var i := 0;
    while i < |ms| && ms[i].wd <= m.wd
      invariant i <= |ms| && forall k :: 0 <= k < i ==> ms[k].wd <= m.wd
    {
      i := i + 1;
    }
    r := ms[..i] + [m] + ms[i..];
    InsertedInOrder(ms, m, i, r);
    assert ms == ms[..i] + ms[i..];
  }

  lemma InsertedInOrder(ms: seq<Mark>, m: Mark, k: nat, r: seq<Mark>)
    requires Ascending(ms) && k <= |ms| && (forall i :: 0 <= i < k ==> ms[i].wd <= m.wd) && (k < |ms| ==> m.wd < ms[k].wd)
    requires r == ms[..k] + [m] + ms[k..]
    ensures Ascending(r)
  {
    forall i, j | 0 <= i < j < |r| ensures r[i].wd <= r[j].wd {
      assert r[i] == if i < k then ms[i] else if i == k then m else ms[i - 1];
      assert r[j] == if j < k then ms[j] else if j == k then m else ms[j - 1];
    }
  }

  method CollectMarks(input: seq<Mark>) returns (ms: seq<Mark>)
    ensures Ascending(ms) && multiset(ms) == multiset(input)
  {
    ms := [];
    var i := 0;
    while i < |input|
      invariant i <= |input| && Ascending(ms) && multiset(ms) == multiset(input[..i])
    {
      ms := CollectMark(ms, input[i]);
      assert input[..i + 1] == input[..i] + [input[i]];
      i := i + 1;
    }
    assert input[..i] == input;
  }

  /** The outcome for one mark: its number can be reached if it was not passed yet. */
  ghost function Outcome(k: Kernel, m: Mark): (bool, Kernel) {
    if m.inode in k.watches && k.watches[m.inode] == m.wd then (true, k)
    else if m.inode in k.watches && k.watches[m.inode] > m.wd then (false, k)
    else if k.next <= m.wd then (true, Kernel(k.watches[m.inode := m.wd], m.wd + 1))
    else (false, Kernel(k.watches[m.inode := k.next], k.next + 1))
  }

  /** The inode has no watch right now, and the number wanted was not passed by retrying. */
  ghost predicate Retrying(k0: Kernel, m: Mark, k: Kernel) {
    && k.watches == k0.watches - {m.inode}
    && (k.next == k0.next || k0.next < k.next <= m.wd)
    && (m.inode in k0.watches ==> k0.watches[m.inode] < m.wd)
  }

  lemma Readd(w: map<nat, nat>, inode: nat, wd: nat)
    ensures (w - {inode})[inode := wd] == w[inode := wd]
  {
  }

  /** The loop of restore_one_inotify: add the watch, and remove it again while its number is too low. */
  method RestoreOne(k0: Kernel, m: Mark) returns (ok: bool, k: Kernel)
    requires forall x :: x in k0.watches ==> k0.watches[x] < k0.next
    ensures (ok, k) == Outcome(k0, m)
  {
    k := k0;
    while true
      invariant k == k0 || Retrying(k0, m, k)
      decreases if m.inode in k.watches then 1 else 0, m.wd - k.next
    {
      Readd(k0.watches, m.inode, k.next);
      var added := AddWatch(k, m.inode);
      var wd := added.1;
      k := added.0;
      if wd == m.wd {
        return true, k;
      } else if wd > m.wd {
        return false, k;
      }
      k := RmWatch(k, m.inode);
    }
  }

  /** The watch of inode x is one of the first n marks. */
  ghost predicate Comes(ms: seq<Mark>, n: nat, k: Kernel, x: nat)
    requires n <= |ms|
  {
    exists i :: 0 <= i < n && ms[i].inode == x && x in k.watches && k.watches[x] == ms[i].wd
  }

  /** The inode of mark i has a watch, with no lower number. */
  ghost predicate Kept(ms: seq<Mark>, k: Kernel, i: nat)
    requires i < |ms|
  {
    ms[i].inode in k.watches && ms[i].wd <= k.watches[ms[i].inode]
  }

  /** The marks of the list up to n are back: the kernel knows for each inode its last mark among them. */
  ghost predicate Replayed(ms: seq<Mark>, n: nat, k: Kernel)
    requires n <= |ms|
  {
    && k.next == (if n == 0 then 1 else ms[n - 1].wd + 1)
    && (forall x {:trigger Comes(ms, n, k, x)} :: x in k.watches ==> Comes(ms, n, k, x))
    && (forall i {:trigger Kept(ms, k, i)} :: 0 <= i < n ==> Kept(ms, k, i))
  }

  /** Marks with one number are marks on one inode. */
  ghost predicate NumbersDiffer(ms: seq<Mark>, n: nat)
    requires n <= |ms|
  {
    forall i, j :: 0 <= i < j < n && ms[i].wd == ms[j].wd ==> ms[i].inode == ms[j].inode
  }

  ghost predicate InodesDiffer(ms: seq<Mark>) {
    forall i, j :: 0 <= i < j < |ms| && ms[i].inode == ms[j].inode ==> ms[i].wd == ms[j].wd
  }

  /** The number of the last mark that was replayed on this inode is not above any later mark. */
  lemma NotAbove(ms: seq<Mark>, n: nat, k: Kernel, x: nat, wd: nat)
    requires n <= |ms| && Replayed(ms, n, k) && (forall i :: 0 <= i < n ==> ms[i].wd <= wd) && x in k.watches
    ensures k.watches[x] <= wd
  {
    assert Comes(ms, n, k, x);
  }

  /** A mark with the number of the one before it is found exactly when it is on the same inode. */
  lemma SameNumber(ms: seq<Mark>, n: nat, k: Kernel)
    requires 0 < n < |ms| && Ascending(ms) && Replayed(ms, n, k) && NumbersDiffer(ms, n) && ms[n].wd == ms[n - 1].wd
    ensures Outcome(k, ms[n]).0 <==> ms[n].inode == ms[n - 1].inode
  {
    var m, last := ms[n], ms[n - 1];
    assert Kept(ms, k, n - 1);
    NotAbove(ms, n, k, last.inode, m.wd);
    if m.inode in k.watches {
      NotAbove(ms, n, k, m.inode, m.wd);
      assert Comes(ms, n, k, m.inode);
    }
  }

  lemma StepSucceeds(ms: seq<Mark>, n: nat, k: Kernel)
    requires n < |ms| && Ascending(ms) && (forall i :: 0 <= i < |ms| ==> ms[i].wd > 0) && Replayed(ms, n, k) && NumbersDiffer(ms, n)
    ensures Outcome(k, ms[n]).0 <==> NumbersDiffer(ms, n + 1)
  {
    var m := ms[n];
    if n > 0 && m.wd == ms[n - 1].wd {
      SameNumber(ms, n, k);
    } else {
      assert n > 0 ==> ms[n - 1].wd < m.wd;
      if m.inode in k.watches { NotAbove(ms, n, k, m.inode, m.wd); }
    }
  }

  lemma StepReplays(ms: seq<Mark>, n: nat, k: Kernel, k': Kernel)
    requires n < |ms| && Ascending(ms) && Replayed(ms, n, k) && Outcome(k, ms[n]) == (true, k')
    ensures Replayed(ms, n + 1, k')
  {
    var m := ms[n];
    if m.inode in k.watches { NotAbove(ms, n, k, m.inode, m.wd); }
    forall x | x in k'.watches ensures Comes(ms, n + 1, k', x) {
      if x == m.inode {
        assert ms[n].inode == x;
      } else {
        assert Comes(ms, n, k, x);
      }
    }
    forall i | 0 <= i < n + 1 ensures Kept(ms, k', i) {
      if i < n { assert Kept(ms, k, i); }
    }
    if k' == k {
      assert Comes(ms, n, k, m.inode);
      var i :| 0 <= i < n && ms[i].inode == m.inode && k.watches[m.inode] == ms[i].wd;
      assert i < n - 1 ==> ms[i].wd <= ms[n - 1].wd;
      assert ms[n - 1].wd <= m.wd;
    }
  }

  /** Every mark has its number again, and there is no other watch. */
  ghost predicate AllBack(ms: seq<Mark>, k: Kernel) {
    && (forall x {:trigger x in k.watches} :: x in k.watches ==> exists i :: 0 <= i < |ms| && ms[i].inode == x)
    && (forall i {:trigger ms[i]} :: 0 <= i < |ms| ==> ms[i].inode in k.watches && k.watches[ms[i].inode] == ms[i].wd)
  }

  lemma AllBackExactlyWhen(ms: seq<Mark>, k: Kernel)
    requires Ascending(ms) && Replayed(ms, |ms|, k)
    ensures AllBack(ms, k) <==> InodesDiffer(ms)
  {
    forall x | x in k.watches ensures exists i :: 0 <= i < |ms| && ms[i].inode == x { assert Comes(ms, |ms|, k, x); }
    if InodesDiffer(ms) {
      forall i | 0 <= i < |ms| ensures ms[i].inode in k.watches && k.watches[ms[i].inode] == ms[i].wd {
        assert Kept(ms, k, i) && Comes(ms, |ms|, k, ms[i].inode);
        var j :| 0 <= j < |ms| && ms[j].inode == ms[i].inode && k.watches[ms[i].inode] == ms[j].wd;
        assert i < j || j < i || i == j;
      }
    }
  }

  /**
   Replaying the collected marks. No number is found passed exactly when different marks have different
   numbers, or are the same; and then all are back exactly when different marks have different inodes.
   */
  method Replay(ms: seq<Mark>) returns (ok: bool, k: Kernel)
    requires Ascending(ms) && forall i :: 0 <= i < |ms| ==> ms[i].wd > 0
    ensures ok <==> NumbersDiffer(ms, |ms|)
    ensures ok ==> (AllBack(ms, k) <==> InodesDiffer(ms))
  {
    k := FRESH;
    var n := 0;
    while n < |ms|
      invariant n <= |ms| && Replayed(ms, n, k) && NumbersDiffer(ms, n)
    {
      ghost var before := k;
      Numbers(ms, n, k);
      StepSucceeds(ms, n, k);
      ok, k := RestoreOne(k, ms[n]);
      if !ok {
        return;
      }
      StepReplays(ms, n, before, k);
      n := n + 1;
    }
    AllBackExactlyWhen(ms, k);
    ok := true;
  }

  /** Marks that share a number share the inode, and the other way round. */
  ghost predicate OneToOne(ms: set<Mark>) {
    forall a, b :: a in ms && b in ms ==> (a.wd == b.wd <==> a.inode == b.inode)
  }

  /** The kernel has exactly the watches of the marks. */
  ghost predicate Restored(ms: set<Mark>, k: Kernel) {
    && (forall x {:trigger x in k.watches} :: x in k.watches ==> Mark(k.watches[x], x) in ms)
    && (forall m {:trigger m in ms} :: m in ms ==> m.inode in k.watches && k.watches[m.inode] == m.wd)
  }

  ghost function Elems(ms: seq<Mark>): set<Mark> { set m | m in ms }

  /** Marks in whatever order they were read are collected and replayed: all come back exactly when they are one to one. */
  method CollectAndReplay(input: seq<Mark>) returns (ok: bool, k: Kernel)
    requires forall i :: 0 <= i < |input| ==> input[i].wd > 0
    ensures ok && Restored(Elems(input), k) <==> OneToOne(Elems(input))
  {
    var ms := CollectMarks(input);
    forall m ensures m in ms <==> m in input { assert m in multiset(ms) <==> m in multiset(input); }
    assert Elems(ms) == Elems(input);
    forall i | 0 <= i < |ms| ensures ms[i].wd > 0 { assert ms[i] in input; }
    ok, k := Replay(ms);
    SameMarks(ms);
    if ok { SameWatches(ms, k); }
  }

  lemma SameMarks(ms: seq<Mark>)
    ensures NumbersDiffer(ms, |ms|) && InodesDiffer(ms) <==> OneToOne(Elems(ms))
  {
    if NumbersDiffer(ms, |ms|) && InodesDiffer(ms) {
      forall a, b | a in Elems(ms) && b in Elems(ms) ensures a.wd == b.wd <==> a.inode == b.inode {
        var i :| 0 <= i < |ms| && ms[i] == a;
        var j :| 0 <= j < |ms| && ms[j] == b;
        assert i < j || j < i || i == j;
      }
    }
    if OneToOne(Elems(ms)) {
      forall i, j | 0 <= i < j < |ms| ensures ms[i].wd == ms[j].wd <==> ms[i].inode == ms[j].inode {
        assert ms[i] in Elems(ms) && ms[j] in Elems(ms);
      }
    }
  }

  lemma SameWatches(ms: seq<Mark>, k: Kernel)
    ensures AllBack(ms, k) <==> Restored(Elems(ms), k)
  {
    if AllBack(ms, k) {
      forall x | x in k.watches ensures Mark(k.watches[x], x) in Elems(ms) {
        var i :| 0 <= i < |ms| && ms[i].inode == x;
        assert ms[i] == Mark(k.watches[x], x);
      }
    }
    if Restored(Elems(ms), k) {
      forall x | x in k.watches ensures exists i :: 0 <= i < |ms| && ms[i].inode == x {
        var i :| 0 <= i < |ms| && ms[i] == Mark(k.watches[x], x);
      }
      forall i | 0 <= i < |ms| ensures ms[i].inode in k.watches && k.watches[ms[i].inode] == ms[i].wd {
        assert ms[i] in Elems(ms);
      }
    }
  }

  lemma Numbers(ms: seq<Mark>, n: nat, k: Kernel)
    requires n <= |ms| && Ascending(ms) && Replayed(ms, n, k)
    ensures forall x :: x in k.watches ==> k.watches[x] < k.next
  {
    forall x | x in k.watches ensures k.watches[x] < k.next {
      NotAbove(ms, n, k, x, if n == 0 then 0 else ms[n - 1].wd);
    }
  }

  /** Two watches on one inode: the second takes the watch of the first away. */
  lemma SecondWatchTakesFirst()
    ensures var ms := [Mark(1, 7), Mark(2, 7)];
            var k := Outcome(Outcome(FRESH, ms[0]).1, ms[1]).1;
            Outcome(FRESH, ms[0]).0 && Outcome(Outcome(FRESH, ms[0]).1, ms[1]).0 && k.watches == map[7 := 2] && !AllBack(ms, k)
  {
    var ms := [Mark(1, 7), Mark(2, 7)];
    assert ms[0].inode == 7;
  }
}
