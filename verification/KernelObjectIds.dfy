/**
 Identity of kernel objects (criu/kcmp-ids.c): a tree of general ids whose nodes are trees ordered by
 the kernel itself.

 kcmp is given as a function; key is the order the kernel keeps behind it, equal for one object only.
 */
module KernelObjectIds {
  import opened OrderedTree
  import opened Wrappers

  datatype Elem = Elem(pid: int, genid: nat, idx: nat)

  datatype Entry = Entry(elem: Elem, id: nat)

  /** A kid_entry of the main tree; its own entry is part of its subtree. */
  datatype Group = Group(genid: nat, sub: Tree<Entry>)

  type Kcmp = (Elem, Elem) -> int

  /** When kcmp answers 0, 1 or 2 it tells equal, less or greater; any other answer is a failure. */
  ghost predicate Orders(kcmp: Kcmp, key: Elem -> int) {
    forall a, b :: && (kcmp(a, b) == 0 ==> key(a) == key(b))
                   && (kcmp(a, b) == 1 ==> key(a) < key(b))
                   && (kcmp(a, b) == 2 ==> key(a) > key(b))
  }

  /** kcmp against one element. */
  function With(kcmp: Kcmp, elem: Elem): Elem -> int { a => kcmp(a, elem) }

  const U32: nat := 0x1_0000_0000

  datatype Answer = Id(id: nat, isNew: bool) | KcmpFailed | Overflow

  ghost predicate Descending(es: seq<Entry>, key: Elem -> int) {
    forall i, j :: 0 <= i < j < |es| ==> key(es[i].elem) > key(es[j].elem)
  }

  ghost predicate GenidsAscend(gs: seq<Group>) {
    forall i, j :: 0 <= i < j < |gs| ==> gs[i].genid < gs[j].genid
  }

  ghost predicate InEntries(es: seq<Entry>, key: Elem -> int, k: int, id: nat) {
    exists j :: 0 <= j < |es| && key(es[j].elem) == k && es[j].id == id
  }

  ghost predicate InGroups(gs: seq<Group>, key: Elem -> int, g: nat, k: int, id: nat) {
    exists i :: 0 <= i < |gs| && gs[i].genid == g && InEntries(InOrder(gs[i].sub), key, k, id)
  }

  lemma InEntriesSplit(a: seq<Entry>, b: seq<Entry>, key: Elem -> int, k: int, id: nat)
    ensures InEntries(a + b, key, k, id) <==> InEntries(a, key, k, id) || InEntries(b, key, k, id)
  {
    if InEntries(a, key, k, id) {
      var j :| 0 <= j < |a| && key(a[j].elem) == k && a[j].id == id;
      assert (a + b)[j] == a[j];
    }
    if InEntries(b, key, k, id) {
      var j :| 0 <= j < |b| && key(b[j].elem) == k && b[j].id == id;
      assert (a + b)[|a| + j] == b[j];
    }
  }

  lemma InGroupsSplit(a: seq<Group>, b: seq<Group>, key: Elem -> int, g: nat, k: int, id: nat)
    ensures InGroups(a + b, key, g, k, id) <==> InGroups(a, key, g, k, id) || InGroups(b, key, g, k, id)
  {
    if InGroups(a, key, g, k, id) {
      var j :| 0 <= j < |a| && a[j].genid == g && InEntries(InOrder(a[j].sub), key, k, id);
      assert (a + b)[j] == a[j];
    }
    if InGroups(b, key, g, k, id) {
      var j :| 0 <= j < |b| && b[j].genid == g && InEntries(InOrder(b[j].sub), key, k, id);
      assert (a + b)[|a| + j] == b[j];
    }
  }

  /** What the trees say is known: which id each (genid, object) has. */
  ghost predicate Agree(gs: seq<Group>, key: Elem -> int, known: map<(nat, int), nat>) {
    forall g: nat, k: int, id: nat {:trigger InGroups(gs, key, g, k, id)} ::
      InGroups(gs, key, g, k, id) <==> (g, k) in known && known[(g, k)] == id
  }

  ghost predicate WellFormed(gs: seq<Group>, key: Elem -> int) {
    GenidsAscend(gs) && forall i {:trigger gs[i]} :: 0 <= i < |gs| ==> Descending(InOrder(gs[i].sub), key)
  }

  datatype Search = Found(entry: Entry) | Missing(path: seq<Turn>) | Failed

  ghost predicate Above(es: seq<Entry>, key: Elem -> int, k: int) {
    forall i :: 0 <= i < |es| ==> key(es[i].elem) > k
  }

  ghost predicate Below(es: seq<Entry>, key: Elem -> int, k: int) {
    forall i :: 0 <= i < |es| ==> key(es[i].elem) < k
  }

  /** The place splits an ordered subtree at k. */
  ghost predicate Splits(sub: Tree<Entry>, path: seq<Turn>, key: Elem -> int, k: int)
    requires Inside(sub, path)
  {
    Descending(InOrder(sub), key) ==> Above(Before(sub, path), key, k) && Below(After(sub, path), key, k)
  }

  lemma DescendingParts(a: seq<Entry>, l: seq<Entry>, v: Entry, r: seq<Entry>, b: seq<Entry>, key: Elem -> int)
    requires Descending(a + (l + [v] + r) + b, key)
    ensures Above(l, key, key(v.elem)) && Below(r, key, key(v.elem))
  {
    var s := a + (l + [v] + r) + b;
    assert s[|a| + |l|] == v;
    forall i | 0 <= i < |l| ensures key(l[i].elem) > key(v.elem) { assert s[|a| + i] == l[i]; }
    forall i | 0 <= i < |r| ensures key(r[i].elem) < key(v.elem) { assert s[|a| + |l| + 1 + i] == r[i]; }
  }

  lemma SplitsDown(sub: Tree<Entry>, path: seq<Turn>, key: Elem -> int, k: int, turn: Turn)
    requires Inside(sub, path) && At(sub, path).Node? && Splits(sub, path, key, k)
    requires if turn == GoLeft then key(At(sub, path).val.elem) < k else key(At(sub, path).val.elem) > k
    ensures Inside(sub, path + [turn]) && Splits(sub, path + [turn], key, k)
  {
    var n := At(sub, path);
    Down(sub, path, turn);
    if Descending(InOrder(sub), key) {
      Around(sub, path);
      DescendingParts(Before(sub, path), InOrder(n.left), n.val, InOrder(n.right), After(sub, path), key);
    }
  }

  lemma NodeInOrder<T>(t: Tree<T>, path: seq<Turn>)
    requires Inside(t, path) && At(t, path).Node?
    ensures exists i :: 0 <= i < |InOrder(t)| && InOrder(t)[i] == At(t, path).val
  {
    Around(t, path);
    assert InOrder(t)[|Before(t, path)| + |InOrder(At(t, path).left)|] == At(t, path).val;
  }

  /** cmp compares the elements with something at place k of the kernel's order. */
  ghost predicate Compares(cmp: Elem -> int, key: Elem -> int, k: int) {
    forall a :: && (cmp(a) == 0 ==> key(a) == k) && (cmp(a) == 1 ==> key(a) < k) && (cmp(a) == 2 ==> key(a) > k)
  }

  ghost predicate Refuses(es: seq<Entry>, cmp: Elem -> int) {
    exists i :: 0 <= i < |es| && !(0 <= cmp(es[i].elem) <= 2)
  }

  /** The walk of kid_generate_sub and kid_lookup_epoll_tfd_sub: down the subtree by what kcmp answers. */
  method SearchSub(sub: Tree<Entry>, cmp: Elem -> int, ghost key: Elem -> int, ghost k: int) returns (r: Search)
    requires Compares(cmp, key, k)
    ensures r.Found? ==> r.entry in InOrder(sub) && key(r.entry.elem) == k
    ensures r.Missing? ==> Inside(sub, r.path) && At(sub, r.path).Leaf? && Splits(sub, r.path, key, k)
    ensures r.Failed? ==> Refuses(InOrder(sub), cmp)
  {
    var node, path := sub, [];
    while node.Node?
      invariant Inside(sub, path) && node == At(sub, path) && Splits(sub, path, key, k)
      decreases node
    {
      var ret := cmp(node.val.elem);
      if ret == 1 {
        SplitsDown(sub, path, key, k, GoLeft);
        Down(sub, path, GoLeft);
        node, path := node.left, path + [GoLeft];
      } else if ret == 2 {
        SplitsDown(sub, path, key, k, GoRight);
        Down(sub, path, GoRight);
        node, path := node.right, path + [GoRight];
      } else {
        NodeInOrder(sub, path);
        return if ret == 0 then Found(node.val) else Failed;
      }
    }
    return Missing(path);
  }

  ghost predicate GenidsBelow(gs: seq<Group>, g: nat) {
    forall i :: 0 <= i < |gs| ==> gs[i].genid < g
  }

  ghost predicate GenidsAbove(gs: seq<Group>, g: nat) {
    forall i :: 0 <= i < |gs| ==> gs[i].genid > g
  }

  ghost predicate SplitsGroups(root: Tree<Group>, path: seq<Turn>, g: nat)
    requires Inside(root, path)
  {
    GenidsAscend(InOrder(root)) ==> GenidsBelow(Before(root, path), g) && GenidsAbove(After(root, path), g)
  }

  lemma AscendingParts(a: seq<Group>, l: seq<Group>, v: Group, r: seq<Group>, b: seq<Group>)
    requires GenidsAscend(a + (l + [v] + r) + b)
    ensures GenidsBelow(l, v.genid) && GenidsAbove(r, v.genid)
  {
    var s := a + (l + [v] + r) + b;
    assert s[|a| + |l|] == v;
    forall i | 0 <= i < |l| ensures l[i].genid < v.genid { assert s[|a| + i] == l[i]; }
    forall i | 0 <= i < |r| ensures r[i].genid > v.genid { assert s[|a| + |l| + 1 + i] == r[i]; }
  }

  lemma GenidsConcat(a: seq<Group>, b: seq<Group>, g: nat)
    ensures GenidsBelow(a, g) && GenidsBelow(b, g) ==> GenidsBelow(a + b, g)
    ensures GenidsAbove(a, g) && GenidsAbove(b, g) ==> GenidsAbove(a + b, g)
  {
  }

  lemma Regroup<T>(a: seq<T>, l: seq<T>, v: T, r: seq<T>, b: seq<T>)
    ensures a + (l + [v] + r) + b == (a + l) + [v] + (r + b)
  {
  }

  lemma SplitsGroupsDown(root: Tree<Group>, path: seq<Turn>, g: nat, turn: Turn)
    requires Inside(root, path) && At(root, path).Node? && SplitsGroups(root, path, g)
    requires if turn == GoLeft then g < At(root, path).val.genid else g > At(root, path).val.genid
    ensures Inside(root, path + [turn]) && SplitsGroups(root, path + [turn], g)
  {
    var n := At(root, path);
    Down(root, path, turn);
    if GenidsAscend(InOrder(root)) {
      Around(root, path);
      var b, l, r, a := Before(root, path), InOrder(n.left), InOrder(n.right), After(root, path);
      AscendingParts(b, l, n.val, r, a);
      if turn == GoLeft {
        GenidsConcat([n.val], r, g);
        GenidsConcat([n.val] + r, a, g);
      } else {
        GenidsConcat(b, l, g);
        GenidsConcat(b + l, [n.val], g);
      }
    }
  }

  /** The walk of kid_generate_gen: the place of the group with this genid, a leaf if there is none. */
  method SearchGroup(root: Tree<Group>, genid: nat) returns (path: seq<Turn>)
    ensures Inside(root, path) && SplitsGroups(root, path, genid)
    ensures At(root, path).Node? ==> At(root, path).val.genid == genid
  {
    var node := root;
    path := [];
    while node.Node?
      invariant Inside(root, path) && node == At(root, path) && SplitsGroups(root, path, genid)
      decreases node
    {
      if genid < node.val.genid {
        SplitsGroupsDown(root, path, genid, GoLeft);
        Down(root, path, GoLeft);
        node, path := node.left, path + [GoLeft];
      } else if genid > node.val.genid {
        SplitsGroupsDown(root, path, genid, GoRight);
        Down(root, path, GoRight);
        node, path := node.right, path + [GoRight];
      } else {
        return;
      }
    }
  }

  /** Around the place of a group: the in-order sequence before it, and after it. */
  ghost function GroupsBefore(root: Tree<Group>, path: seq<Turn>): seq<Group>
    requires Inside(root, path)
  {
    Before(root, path) + (if At(root, path).Node? then InOrder(At(root, path).left) else [])
  }

  ghost function GroupsAfter(root: Tree<Group>, path: seq<Turn>): seq<Group>
    requires Inside(root, path)
  {
    (if At(root, path).Node? then InOrder(At(root, path).right) else []) + After(root, path)
  }

  /** No other group has this genid. */
  lemma OtherGroups(root: Tree<Group>, path: seq<Turn>, g: nat)
    requires Inside(root, path) && SplitsGroups(root, path, g) && GenidsAscend(InOrder(root))
    requires At(root, path).Node? ==> At(root, path).val.genid == g
    ensures InOrder(root) == GroupsBefore(root, path) + (if At(root, path).Node? then [At(root, path).val] else []) + GroupsAfter(root, path)
    ensures GenidsBelow(GroupsBefore(root, path), g) && GenidsAbove(GroupsAfter(root, path), g)
  {
    var n := At(root, path);
    Around(root, path);
    if n.Node? {
      var b, l, r, a := Before(root, path), InOrder(n.left), InOrder(n.right), After(root, path);
      AscendingParts(b, l, n.val, r, a);
      GenidsConcat(b, l, g);
      GenidsConcat(r, a, g);
      Regroup(b, l, n.val, r, a);
    }
  }

  /** The entries of group G become es: what is known of it changes, and nothing else. */
  lemma ChangeGroup(b: seq<Group>, was: seq<Group>, G: Group, a: seq<Group>, key: Elem -> int,
                    known: map<(nat, int), nat>, k: int, id: nat)
    requires Agree(b + was + a, key, known) && (G.genid, k) !in known
    requires |was| <= 1 && (was != [] ==> was[0].genid == G.genid)
    requires forall k': int, id': nat {:trigger InEntries(InOrder(G.sub), key, k', id')} :: InEntries(InOrder(G.sub), key, k', id') <==>
      (was != [] && InEntries(InOrder(was[0].sub), key, k', id')) || (k' == k && id' == id)
    ensures Agree(b + [G] + a, key, known[(G.genid, k) := id])
  {
    var known' := known[(G.genid, k) := id];
    forall g: nat, k': int, id': nat
      ensures InGroups(b + [G] + a, key, g, k', id') <==> (g, k') in known' && known'[(g, k')] == id'
    {
      InGroupsSplit(b + [G], a, key, g, k', id');
      InGroupsSplit(b, [G], key, g, k', id');
      InGroupsSplit(b + was, a, key, g, k', id');
      InGroupsSplit(b, was, key, g, k', id');
      assert InGroups(b + was + a, key, g, k', id') <==> (g, k') in known && known[(g, k')] == id';
      OneGroup(G, key, g, k', id');
      if was != [] {
        assert was == [was[0]];
        OneGroup(was[0], key, g, k', id');
      }
    }
  }

  lemma OneGroup(G: Group, key: Elem -> int, g: nat, k: int, id: nat)
    ensures InGroups([G], key, g, k, id) <==> G.genid == g && InEntries(InOrder(G.sub), key, k, id)
  {
    assert [G][0] == G;
  }

  lemma WellFormedChange(b: seq<Group>, o: seq<Group>, G: Group, a: seq<Group>, key: Elem -> int)
    requires WellFormed(b + o + a, key) && |o| <= 1 && Descending(InOrder(G.sub), key)
    requires GenidsBelow(b, G.genid) && GenidsAbove(a, G.genid)
    ensures WellFormed(b + [G] + a, key)
  {
    var s, s' := b + o + a, b + [G] + a;
    forall i | 0 <= i < |s'| ensures i != |b| ==> exists k :: 0 <= k < |s| && s[k] == s'[i] && (i < |b| ==> k == i) && (i > |b| ==> k == i - 1 + |o|) {
      if i < |b| {
        assert s[i] == s'[i];
      } else if i > |b| {
        assert s[i - 1 + |o|] == s'[i];
      }
    }
  }

  lemma SplitsMissing(sub: Tree<Entry>, path: seq<Turn>, key: Elem -> int, k: int)
    requires Inside(sub, path) && At(sub, path).Leaf? && Descending(InOrder(sub), key) && Splits(sub, path, key, k)
    ensures forall id :: !InEntries(InOrder(sub), key, k, id)
  {
    Around(sub, path);
    assert InOrder(sub) == Before(sub, path) + After(sub, path);
    forall id ensures !InEntries(InOrder(sub), key, k, id) {
      InEntriesSplit(Before(sub, path), After(sub, path), key, k, id);
    }
  }

  /** An entry with key k put at its place. */
  lemma InsertEntry(sub: Tree<Entry>, path: seq<Turn>, e: Entry, key: Elem -> int, es: seq<Entry>)
    requires Inside(sub, path) && At(sub, path).Leaf? && Descending(InOrder(sub), key) && Splits(sub, path, key, key(e.elem))
    requires es == Before(sub, path) + [e] + After(sub, path)
    ensures Descending(es, key)
    ensures forall k: int, id: nat {:trigger InEntries(es, key, k, id)} ::
      InEntries(es, key, k, id) <==> InEntries(InOrder(sub), key, k, id) || (k == key(e.elem) && id == e.id)
    ensures forall id :: !InEntries(InOrder(sub), key, key(e.elem), id)
  {
    var b, a := Before(sub, path), After(sub, path);
    Around(sub, path);
    assert InOrder(sub) == b + a;
    DescendingInsert(b, e, a, key);
    forall k: int, id: nat
      ensures InEntries(es, key, k, id) <==> InEntries(InOrder(sub), key, k, id) || (k == key(e.elem) && id == e.id)
    {
      InEntriesSplit(b + [e], a, key, k, id);
      InEntriesSplit(b, [e], key, k, id);
      InEntriesSplit(b, a, key, k, id);
      assert [e][0] == e;
    }
    SplitsMissing(sub, path, key, key(e.elem));
  }

  lemma DescendingInsert(b: seq<Entry>, e: Entry, a: seq<Entry>, key: Elem -> int)
    requires Descending(b + a, key) && Above(b, key, key(e.elem)) && Below(a, key, key(e.elem))
    ensures Descending(b + [e] + a, key)
  {
    var s, s' := b + a, b + [e] + a;
    forall i, j | 0 <= i < j < |s'| ensures key(s'[i].elem) > key(s'[j].elem) {
      if i < |b| && j > |b| {
        assert s[i] == s'[i] && s[j - 1] == s'[j];
      } else if j < |b| {
        assert s[i] == s'[i] && s[j] == s'[j];
      } else if i > |b| {
        assert s[i - 1] == s'[i] && s[j - 1] == s'[j];
      }
    }
  }

  /** The comparison fails on some element that was seen with this genid. */
  ghost predicate CannotCompare(gs: seq<Group>, cmp: Elem -> int, genid: nat) {
    exists i :: 0 <= i < |gs| && gs[i].genid == genid && Refuses(InOrder(gs[i].sub), cmp)
  }

  /** An object no group holds is not known. */
  lemma Unknown(b: seq<Group>, o: seq<Group>, a: seq<Group>, key: Elem -> int, known: map<(nat, int), nat>, g: nat, k: int)
    requires Agree(b + o + a, key, known) && GenidsBelow(b, g) && GenidsAbove(a, g) && |o| <= 1
    requires o != [] ==> forall id :: !InEntries(InOrder(o[0].sub), key, k, id)
    ensures (g, k) !in known
  {
    if (g, k) in known {
      var id := known[(g, k)];
      InGroupsSplit(b + o, a, key, g, k, id);
      InGroupsSplit(b, o, key, g, k, id);
    }
  }

  /** What the trees stand for: the ids given out, and the next number to draw. */
  datatype Ids = Ids(known: map<(nat, int), nat>, next: nat)

  /** The simple relation the trees must agree with: one id per (genid, object), drawn at first sight. */
  ghost function Ask(s: Ids, genid: nat, obj: int): (Ids, Answer) {
    if (genid, obj) in s.known then (s, Id(s.known[(genid, obj)], false))
    else if s.next % U32 == 0 then (s, Overflow)
    else (Ids(s.known[(genid, obj) := s.next % U32], s.next + 1), Id(s.next % U32, true))
  }

  class KidTree {
    const kcmp: Kcmp
    ghost const key: Elem -> int
    var root: Tree<Group>
    var subid: nat
    ghost var known: map<(nat, int), nat>

    ghost predicate Valid()
      reads this
    {
      Orders(kcmp, key) && WellFormed(InOrder(root), key) && Agree(InOrder(root), key, known)
    }

    ghost function Abs(): Ids
      reads this
    {
      Ids(known, subid)
    }

    constructor (kcmp: Kcmp, ghost key: Elem -> int)
      requires Orders(kcmp, key)
      ensures Valid() && Abs() == Ids(map[], 1) && this.kcmp == kcmp && this.key == key
    {
      this.kcmp, this.key := kcmp, key;
      root, subid, known := Leaf, 1, map[];
    }

    /** kid_generate_sub, for the group at this place of the main tree */
    method GenerateSub(path: seq<Turn>, elem: Elem) returns (r: Answer)
      requires Valid() && Inside(root, path) && At(root, path).Node? && At(root, path).val.genid == elem.genid
      requires SplitsGroups(root, path, elem.genid)
      modifies this
      ensures Valid()
      ensures r != KcmpFailed ==> (Abs(), r) == Ask(old(Abs()), elem.genid, key(elem))
      ensures r == KcmpFailed ==> Abs() == old(Abs()) && CannotCompare(old(InOrder(root)), With(kcmp, elem), elem.genid)
    {
      var node := At(root, path);
      var G := node.val;
      OtherGroups(root, path, elem.genid);
      ghost var b, a, i := GroupsBefore(root, path), GroupsAfter(root, path), |GroupsBefore(root, path)|;
      assert InOrder(root)[i] == G;
      var found := SearchSub(G.sub, With(kcmp, elem), key, key(elem));
      match found
      case Failed =>
        r := KcmpFailed;
      case Found(e) =>
        assert InEntries(InOrder(G.sub), key, key(elem), e.id);
        assert InGroups(InOrder(root), key, elem.genid, key(elem), e.id);
        r := Id(e.id, false);
      case Missing(spath) =>
        var e := Entry(elem, subid % U32);
        InsertEntry(G.sub, spath, e, key, Before(G.sub, spath) + [e] + After(G.sub, spath));
        Unknown(b, [G], a, key, known, elem.genid, key(elem));
        if subid % U32 == 0 {
          return Overflow;
        }
        var sub := LinkAndBalance(G.sub, spath, e);
        var G' := Group(G.genid, sub);
        ChangeGroup(b, [G], G', a, key, known, key(elem), e.id);
        WellFormedChange(b, [G], G', a, key);
        PutGroup(root, path, G');
        root := Put(root, path, node.(val := G'));
        known := known[(elem.genid, key(elem)) := e.id];
        subid := subid + 1;
        r := Id(e.id, true);
    }

    /** kid_generate_gen: the trees answer as the simple relation does, unless kcmp fails on an element of the same genid. */
    method GenerateGen(elem: Elem) returns (r: Answer)
      requires Valid()
      modifies this
      ensures Valid()
      ensures r != KcmpFailed ==> (Abs(), r) == Ask(old(Abs()), elem.genid, key(elem))
      ensures r == KcmpFailed ==> Abs() == old(Abs()) && CannotCompare(old(InOrder(root)), With(kcmp, elem), elem.genid)
    {
      var path := SearchGroup(root, elem.genid);
      if At(root, path).Node? {
        r := GenerateSub(path, elem);
      } else {
        OtherGroups(root, path, elem.genid);
        ghost var b, a := GroupsBefore(root, path), GroupsAfter(root, path);
        Unknown(b, [], a, key, known, elem.genid, key(elem));
        if subid % U32 == 0 {
          return Overflow;
        }
        var e := Entry(elem, subid % U32);
        var G := Group(elem.genid, Node(Leaf, e, Leaf));
        OneEntry(G, e, key);
        assert b == Before(root, path) && a == After(root, path);
        ChangeGroup(b, [], G, a, key, known, key(elem), e.id);
        WellFormedChange(b, [], G, a, key);
        root := LinkAndBalance(root, path, G);
        known := known[(elem.genid, key(elem)) := e.id];
        subid := subid + 1;
        r := Id(e.id, true);
      }
    }

    /**
     kid_lookup_epoll_tfd: the element of this genid that the epoll slot refers to. slot compares an
     element with the slot's target, which the kernel keeps at place k.
     */
    method LookupEpollTfd(genid: nat, slot: Elem -> int, ghost k: int) returns (r: Option<Elem>, ghost failed: bool)
      requires Valid() && Compares(slot, key, k)
      ensures r.Some? ==> key(r.value) == k && (genid, k) in known
      ensures r.None? && !failed ==> (genid, k) !in known
      ensures failed ==> r.None? && CannotCompare(InOrder(root), slot, genid)
    {
      var path := SearchGroup(root, genid);
      OtherGroups(root, path, genid);
      ghost var b, a, i := GroupsBefore(root, path), GroupsAfter(root, path), |GroupsBefore(root, path)|;
      r, failed := None, false;
      if At(root, path).Node? {
        var G := At(root, path).val;
        assert InOrder(root)[i] == G;
        var found := SearchSub(G.sub, slot, key, k);
        match found
        case Failed =>
          failed := true;
        case Found(e) =>
          assert InEntries(InOrder(G.sub), key, k, e.id);
          assert InGroups(InOrder(root), key, genid, k, e.id);
          r := Some(e.elem);
        case Missing(spath) =>
          SplitsMissing(G.sub, spath, key, k);
          Unknown(b, [G], a, key, known, genid, k);
      } else {
        Unknown(b, [], a, key, known, genid, k);
      }
    }
  }

  lemma OneEntry(G: Group, e: Entry, key: Elem -> int)
    requires G.sub == Node(Leaf, e, Leaf)
    ensures Descending(InOrder(G.sub), key)
    ensures forall k: int, id: nat {:trigger InEntries(InOrder(G.sub), key, k, id)} ::
      InEntries(InOrder(G.sub), key, k, id) <==> k == key(e.elem) && id == e.id
  {
    assert InOrder(G.sub) == [e] && [e][0] == e;
  }

  /** Changing the group at a place changes it in the in-order sequence. */
  lemma PutGroup(root: Tree<Group>, path: seq<Turn>, G: Group)
    requires Inside(root, path) && At(root, path).Node?
    ensures InOrder(Put(root, path, At(root, path).(val := G))) == GroupsBefore(root, path) + [G] + GroupsAfter(root, path)
  {
    var n := At(root, path);
    PutInOrder(root, path, n.(val := G));
    Regroup(Before(root, path), InOrder(n.left), G, InOrder(n.right), After(root, path));
  }
}
