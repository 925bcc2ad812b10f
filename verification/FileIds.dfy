/**
 Ids of open files (criu/file-ids.c): the identity trees, a hash cache in front of them, and ids drawn
 for special files from the same counter.
 */
module FileIds {
  import opened OrderedTree
  import opened KernelObjectIds
  import opened Wrappers

  /** What the cache compares: device, inode and mount. */
  datatype FdKey = FdKey(dev: nat, ino: nat, mnt: int)

  datatype FdId = FdId(key: FdKey, id: nat)

  const FDID_SIZE: nat := 32

  /** fdid_hashfn; masking with 31 is the remainder by 32 */
  function Hash(k: FdKey): (h: nat)
    ensures h < FDID_SIZE
  {
    (k.dev + k.ino) % FDID_SIZE
  }

  /** The first record with this key in a chain. */
  function InChain(chain: seq<FdId>, k: FdKey): Option<nat> {
    if chain == [] then None
    else if chain[0].key == k then Some(chain[0].id)
    else InChain(chain[1..], k)
  }

  /** The cache holds what was written last for each key. */
  ghost predicate Caches(cache: seq<seq<FdId>>, latest: map<FdKey, nat>) {
    && |cache| == FDID_SIZE
    && forall k {:trigger InChain(cache[Hash(k)], k)} ::
         InChain(cache[Hash(k)], k) == if k in latest then Some(latest[k]) else None
  }

  datatype State = State(ids: Ids, latest: map<FdKey, nat>)

  /** A file by its genid and kernel object, or a special file that may have no fd_parms. */
  datatype Request = File(genid: nat, obj: int, key: FdKey) | Special(p: Option<FdKey>)

  /** The simple relation: ids by object, and a last-write-wins map by key. */
  ghost function Serve(s: State, q: Request): (State, Answer) {
    match q
    case File(g, o, k) =>
      var (ids, a) := Ask(s.ids, g, o);
      (State(ids, if a.Id? && a.isNew then s.latest[k := a.id] else s.latest), a)
    case Special(p) =>
      if p.Some? && p.value in s.latest then (s, Id(s.latest[p.value], false))
      else
        var id := s.ids.next % U32;
        (State(s.ids.(next := s.ids.next + 1), if p.Some? then s.latest[p.value := id] else s.latest), Id(id, true))
  }

  class FileIdTable {
    const tree: KidTree
    var cache: seq<seq<FdId>>
    ghost var latest: map<FdKey, nat>

    ghost predicate Valid()
      reads this, tree
    {
      tree.Valid() && Caches(cache, latest)
    }

    ghost function Abs(): State
      reads this, tree
    {
      State(tree.Abs(), latest)
    }

    constructor (kcmp: Kcmp, ghost key: Elem -> int)
      requires Orders(kcmp, key)
      ensures Valid() && fresh(tree) && Abs() == State(Ids(map[], 1), map[])
    {
      tree := new KidTree(kcmp, key);
      cache, latest := seq(FDID_SIZE, _ => []), map[];
    }

    /** fd_id_cache_lookup */
    method CacheLookup(k: FdKey) returns (r: Option<nat>)
      requires Valid()
      ensures r == if k in latest then Some(latest[k]) else None
    {
      var chain := cache[Hash(k)];
      var i := 0;
      while i < |chain|
        invariant i <= |chain| && InChain(chain, k) == InChain(chain[i..], k)
      {
        if chain[i].key == k {
          return Some(chain[i].id);
        }
        assert chain[i..][1..] == chain[i + 1..];
        i := i + 1;
      }
      return None;
    }

    /** fd_id_cache_one */
    method CacheOne(id: nat, k: FdKey)
      requires Valid()
      modifies this
      ensures Valid() && Abs() == old(Abs()).(latest := old(latest)[k := id])
    {
      var h := Hash(k);
      cache := cache[h := [FdId(k, id)] + cache[h]];
      latest := latest[k := id];
      forall k' ensures InChain(cache[Hash(k')], k') == if k' in latest then Some(latest[k']) else None {
        assert InChain(old(cache)[Hash(k')], k') == if k' in old(latest) then Some(old(latest)[k']) else None;
        if Hash(k') == h {
          assert cache[h][1..] == old(cache)[h];
        }
      }
    }

    /** fd_id_generate_special */
    method GenerateSpecial(p: Option<FdKey>) returns (r: Answer)
      requires Valid()
      modifies this, tree
      ensures Valid() && (Abs(), r) == Serve(old(Abs()), Special(p))
    {
      if p.Some? {
        var hit := CacheLookup(p.value);
        if hit.Some? {
          return Id(hit.value, false);
        }
      }
      var id := tree.subid % U32;
      tree.subid := tree.subid + 1;
      if p.Some? {
        CacheOne(id, p.value);
      }
      r := Id(id, true);
    }

    /** fd_id_generate */
    method Generate(pid: int, genid: nat, fd: nat, k: FdKey) returns (r: Answer)
      requires Valid()
      modifies this, tree
      ensures Valid()
      ensures r != KcmpFailed ==> (Abs(), r) == Serve(old(Abs()), File(genid, tree.key(Elem(pid, genid, fd)), k))
      ensures r == KcmpFailed ==> Abs() == old(Abs())
    {
      r := tree.GenerateGen(Elem(pid, genid, fd));
      if r.Id? && r.isNew {
        CacheOne(r.id, k);
      }
    }
  }

  /** The state before request i of a run. */
  ghost function StateAt(s: State, qs: seq<Request>, i: nat): State
    requires i <= |qs|
  {
    if i == 0 then s else Serve(StateAt(s, qs, i - 1), qs[i - 1]).0
  }

  ghost function AnswerTo(s: State, qs: seq<Request>, i: nat): Answer
    requires i < |qs|
  {
    Serve(StateAt(s, qs, i), qs[i]).1
  }

  ghost function Start(): State { State(Ids(map[], 1), map[]) }

  /** Ids given out so far lie between 0 and the next number and are all different. */
  ghost predicate Good(s: Ids) {
    && (forall x {:trigger s.known[x]} :: x in s.known ==> 0 < s.known[x] < s.next)
    && (forall x, y {:trigger s.known[x], s.known[y]} :: x in s.known && y in s.known && s.known[x] == s.known[y] ==> x == y)
    && 0 < s.next
  }

  /** Fewer than 2^32 numbers have been drawn by the end of the run. */
  ghost predicate NoWrap(qs: seq<Request>) { StateAt(Start(), qs, |qs|).ids.next <= U32 }

  lemma NoRemainder(n: nat)
    requires n < U32
    ensures n % U32 == n
  {
  }

  /** One request: a new answer is the next number, any other changes no id. */
  lemma OneRequest(s: State, q: Request, s': State, a: Answer)
    requires (s', a) == Serve(s, q) && s'.ids.next <= U32 && Good(s.ids)
    ensures Good(s'.ids)
    ensures if a.Id? && a.isNew then a.id == s.ids.next && s'.ids.next == s.ids.next + 1 else s'.ids == s.ids
    ensures s'.ids.known == if q.File? && a.Id? && a.isNew then s.ids.known[(q.genid, q.obj) := a.id] else s.ids.known
  {
    if s.ids.next < U32 { NoRemainder(s.ids.next); }
  }

  lemma {:induction false} Grows(s: State, qs: seq<Request>, i: nat, j: nat)
    requires i <= j <= |qs|
    ensures StateAt(s, qs, i).ids.next <= StateAt(s, qs, j).ids.next
    ensures forall x :: x in StateAt(s, qs, i).ids.known ==>
      x in StateAt(s, qs, j).ids.known && StateAt(s, qs, j).ids.known[x] == StateAt(s, qs, i).ids.known[x]
  {
    if i < j { Grows(s, qs, i, j - 1); }
  }

  lemma {:induction false} StaysGood(qs: seq<Request>, i: nat)
    requires i <= |qs| && NoWrap(qs)
    ensures Good(StateAt(Start(), qs, i).ids) && StateAt(Start(), qs, i).ids.next <= U32
  {
    Grows(Start(), qs, i, |qs|);
    if i > 0 {
      StaysGood(qs, i - 1);
      var s := StateAt(Start(), qs, i - 1);
      OneRequest(s, qs[i - 1], StateAt(Start(), qs, i), AnswerTo(Start(), qs, i - 1));
    }
  }

  /** After an answered file request its object is known under that id, for good. */
  lemma Remembered(qs: seq<Request>, i: nat, j: nat)
    requires i < j <= |qs| && qs[i].File? && AnswerTo(Start(), qs, i).Id?
    ensures (qs[i].genid, qs[i].obj) in StateAt(Start(), qs, j).ids.known
    ensures StateAt(Start(), qs, j).ids.known[(qs[i].genid, qs[i].obj)] == AnswerTo(Start(), qs, i).id
  {
    Grows(Start(), qs, i + 1, j);
  }

  /** Two files get the same id exactly when their genids match and they are one kernel object. */
  lemma SameIdExactlyWhen(qs: seq<Request>, i: nat, j: nat)
    requires NoWrap(qs) && i < j < |qs| && qs[i].File? && qs[j].File?
    requires AnswerTo(Start(), qs, i).Id? && AnswerTo(Start(), qs, j).Id?
    ensures AnswerTo(Start(), qs, i).id == AnswerTo(Start(), qs, j).id <==>
      qs[i].genid == qs[j].genid && qs[i].obj == qs[j].obj
  {
    Remembered(qs, i, j + 1);
    Remembered(qs, j, j + 1);
    StaysGood(qs, j + 1);
  }

  ghost predicate SeenBefore(qs: seq<Request>, i: nat)
    requires i < |qs| && qs[i].File?
  {
    exists k :: 0 <= k < i && qs[k].File? && qs[k].genid == qs[i].genid && qs[k].obj == qs[i].obj
                && AnswerTo(Start(), qs, k).Id?
  }

  lemma {:induction false} KnownWasSeen(qs: seq<Request>, i: nat, g: nat, o: int) returns (k: nat)
    requires i <= |qs| && (g, o) in StateAt(Start(), qs, i).ids.known
    ensures k < i && qs[k].File? && qs[k].genid == g && qs[k].obj == o && AnswerTo(Start(), qs, k).Id?
  {
    if (g, o) in StateAt(Start(), qs, i - 1).ids.known {
      k := KnownWasSeen(qs, i - 1, g, o);
    } else {
      k := i - 1;
    }
  }

  /** An id is reported as new exactly on first sight of the object. */
  lemma NewExactlyOnFirstSight(qs: seq<Request>, i: nat)
    requires i < |qs| && qs[i].File? && AnswerTo(Start(), qs, i).Id?
    ensures AnswerTo(Start(), qs, i).isNew <==> !SeenBefore(qs, i)
  {
    if SeenBefore(qs, i) {
      var k :| 0 <= k < i && qs[k].File? && qs[k].genid == qs[i].genid && qs[k].obj == qs[i].obj
               && AnswerTo(Start(), qs, k).Id?;
      Remembered(qs, k, i);
    }
    if !AnswerTo(Start(), qs, i).isNew {
      var k := KnownWasSeen(qs, i, qs[i].genid, qs[i].obj);
    }
  }

  /** What request i does to the ids. */
  lemma RequestAt(qs: seq<Request>, i: nat)
    requires NoWrap(qs) && i < |qs|
    ensures var s, s', a := StateAt(Start(), qs, i).ids, StateAt(Start(), qs, i + 1).ids, AnswerTo(Start(), qs, i);
            && (a.Id? && a.isNew ==> 0 < a.id == s.next && s'.next == a.id + 1)
            && s'.known == (if qs[i].File? && a.Id? && a.isNew then s.known[(qs[i].genid, qs[i].obj) := a.id] else s.known)
  {
    StaysGood(qs, i);
    StaysGood(qs, i + 1);
    OneRequest(StateAt(Start(), qs, i), qs[i], StateAt(Start(), qs, i + 1), AnswerTo(Start(), qs, i));
  }

  /** A number drawn is never drawn again, by files and special files alike. */
  lemma DrawnOnce(qs: seq<Request>, i: nat, j: nat)
    requires NoWrap(qs) && i < j < |qs|
    requires var a, b := AnswerTo(Start(), qs, i), AnswerTo(Start(), qs, j); a.Id? && a.isNew && b.Id? && b.isNew
    ensures 0 < AnswerTo(Start(), qs, i).id < AnswerTo(Start(), qs, j).id
  {
    RequestAt(qs, i);
    RequestAt(qs, j);
    Grows(Start(), qs, i + 1, j);
  }

  /** A file never has an id that was drawn for a special file. */
  lemma NeverSpecial(qs: seq<Request>, i: nat, j: nat)
    requires NoWrap(qs) && i < |qs| && j < |qs| && qs[i].Special? && AnswerTo(Start(), qs, i).isNew
    requires qs[j].File? && AnswerTo(Start(), qs, j).Id?
    ensures AnswerTo(Start(), qs, i).id != AnswerTo(Start(), qs, j).id
  {
    var n := if i < j then j + 1 else i + 1;
    Remembered(qs, j, n);
    NotGivenToFile(qs, i, n, AnswerTo(Start(), qs, i).id);
  }

  /** d has been drawn, but no file has it. */
  ghost predicate Spared(s: Ids, d: nat) {
    d < s.next && forall x {:trigger s.known[x]} :: x in s.known ==> s.known[x] != d
  }

  lemma SparedByRequest(s: State, q: Request, s': State, a: Answer, d: nat)
    requires (s', a) == Serve(s, q) && s'.ids.next <= U32 && Good(s.ids)
    requires Spared(s.ids, d) || (q.Special? && a.isNew && a.id == d)
    ensures Spared(s'.ids, d)
  {
    OneRequest(s, q, s', a);
  }

  lemma SparedNext(qs: seq<Request>, n: nat, d: nat)
    requires NoWrap(qs) && 0 < n <= |qs|
    requires Spared(StateAt(Start(), qs, n - 1).ids, d) || (qs[n - 1].Special? && AnswerTo(Start(), qs, n - 1) == Id(d, true))
    ensures Spared(StateAt(Start(), qs, n).ids, d)
  {
    StaysGood(qs, n);
    StaysGood(qs, n - 1);
    SparedByRequest(StateAt(Start(), qs, n - 1), qs[n - 1], StateAt(Start(), qs, n), AnswerTo(Start(), qs, n - 1), d);
  }

  lemma {:induction false} NotGivenToFile(qs: seq<Request>, i: nat, n: nat, d: nat)
    requires NoWrap(qs) && i < n <= |qs| && qs[i].Special? && AnswerTo(Start(), qs, i) == Id(d, true)
    ensures Spared(StateAt(Start(), qs, n).ids, d)
    decreases n
  {
    if i + 1 < n { NotGivenToFile(qs, i, n - 1, d); }
    SparedNext(qs, n, d);
  }

  // How many numbers a run draws, told from its requests alone.

  /** The objects and the cache keys that occurred, and how many requests had to draw a number. */
  datatype Tally = Tally(objs: set<(nat, int)>, keys: set<FdKey>, count: nat)

  predicate Draws(t: Tally, q: Request) {
    match q
    case File(g, o, _) => (g, o) !in t.objs
    case Special(p) => p.None? || p.value !in t.keys
  }

  function Counted(t: Tally, q: Request): Tally {
    if !Draws(t, q) then t
    else match q
      case File(g, o, k) => Tally(t.objs + {(g, o)}, t.keys + {k}, t.count + 1)
      case Special(p) => Tally(t.objs, if p.Some? then t.keys + {p.value} else t.keys, t.count + 1)
  }

  function TallyAt(qs: seq<Request>, i: nat): Tally
    requires i <= |qs|
  {
    if i == 0 then Tally({}, {}, 0) else Counted(TallyAt(qs, i - 1), qs[i - 1])
  }

  lemma {:induction false} TallyGrows(qs: seq<Request>, i: nat, j: nat)
    requires i <= j <= |qs|
    ensures TallyAt(qs, i).count <= TallyAt(qs, j).count
  {
    if i < j { TallyGrows(qs, i, j - 1); }
  }

  /** The state has seen exactly what was counted. */
  ghost predicate Matches(s: State, t: Tally) {
    s.ids.known.Keys == t.objs && s.latest.Keys == t.keys && s.ids.next == t.count + 1
  }

  lemma MatchStep(s: State, t: Tally, q: Request)
    requires Matches(s, t) && t.count + 1 < U32
    ensures Matches(Serve(s, q).0, Counted(t, q))
    ensures Serve(s, q).1.Id? && (Serve(s, q).1.isNew <==> Draws(t, q))
    ensures Draws(t, q) ==> Serve(s, q).1.id == t.count + 1
  {
    NoRemainder(s.ids.next);
  }

  lemma {:induction false} TallyMatches(qs: seq<Request>, i: nat)
    requires i <= |qs| && TallyAt(qs, i).count < U32
    ensures Matches(StateAt(Start(), qs, i), TallyAt(qs, i))
  {
    if i > 0 {
      TallyGrows(qs, i - 1, i);
      TallyMatches(qs, i - 1);
      var s, t := StateAt(Start(), qs, i - 1), TallyAt(qs, i - 1);
      if Draws(t, qs[i - 1]) || t.count + 1 < U32 { MatchStep(s, t, qs[i - 1]); } else { MatchSame(s, t, qs[i - 1]); }
    }
  }

  lemma MatchSame(s: State, t: Tally, q: Request)
    requires Matches(s, t) && !Draws(t, q)
    ensures Serve(s, q).0 == s && Serve(s, q).1.Id? && !Serve(s, q).1.isNew
  {
  }

  /** The request that has to draw the 2^32th number: a file aborts, a special file gets 0. */
  lemma LastDraw(s: State, t: Tally, q: Request)
    requires Matches(s, t) && Draws(t, q) && t.count + 1 == U32
    ensures Serve(s, q).1 == if q.File? then Overflow else Id(0, true)
  {
  }

  ghost predicate Refused(a: Answer) { a == Overflow || a == Id(0, true) }

  lemma {:induction false} FirstRefused(qs: seq<Request>, n: nat) returns (i: nat)
    requires n <= |qs| && TallyAt(qs, n).count >= U32
    ensures i < n && Refused(AnswerTo(Start(), qs, i))
  {
    if TallyAt(qs, n - 1).count >= U32 {
      i := FirstRefused(qs, n - 1);
    } else {
      i := n - 1;
      TallyMatches(qs, i);
      LastDraw(StateAt(Start(), qs, i), TallyAt(qs, i), qs[i]);
    }
  }

  lemma NotRefused(qs: seq<Request>, i: nat)
    requires i < |qs| && TallyAt(qs, i + 1).count < U32
    ensures !Refused(AnswerTo(Start(), qs, i))
  {
    TallyGrows(qs, i, i + 1);
    TallyMatches(qs, i);
    var s, t := StateAt(Start(), qs, i), TallyAt(qs, i);
    if Draws(t, qs[i]) { MatchStep(s, t, qs[i]); } else { MatchSame(s, t, qs[i]); }
  }

  /** Fewer than 2^32 requests have to draw exactly when no request aborts and none draws 0. */
  lemma EnoughNumbersExactlyWhen(qs: seq<Request>)
    ensures TallyAt(qs, |qs|).count < U32 <==> forall i :: 0 <= i < |qs| ==> !Refused(AnswerTo(Start(), qs, i))
    ensures TallyAt(qs, |qs|).count < U32 ==> NoWrap(qs)
  {
    if TallyAt(qs, |qs|).count < U32 {
      TallyMatches(qs, |qs|);
      forall i | 0 <= i < |qs| ensures !Refused(AnswerTo(Start(), qs, i)) {
        TallyGrows(qs, i + 1, |qs|);
        NotRefused(qs, i);
      }
    } else {
      var i := FirstRefused(qs, |qs|);
    }
  }

  /** Every request is answered, and the numbers drawn are non-zero and all different. */
  ghost predicate AllSound(qs: seq<Request>) {
    && (forall i {:trigger AnswerTo(Start(), qs, i)} :: 0 <= i < |qs| ==>
          AnswerTo(Start(), qs, i).Id? && (AnswerTo(Start(), qs, i).isNew ==> AnswerTo(Start(), qs, i).id != 0))
    && (forall i, j {:trigger AnswerTo(Start(), qs, i), AnswerTo(Start(), qs, j)} ::
          0 <= i < j < |qs| && AnswerTo(Start(), qs, i).isNew && AnswerTo(Start(), qs, j).isNew ==>
            AnswerTo(Start(), qs, i).id != AnswerTo(Start(), qs, j).id)
  }

  /** The ids of a run are sound exactly when fewer than 2^32 of its requests have to draw. */
  lemma SoundExactlyWhen(qs: seq<Request>)
    ensures AllSound(qs) <==> TallyAt(qs, |qs|).count < U32
  {
    EnoughNumbersExactlyWhen(qs);
    forall i | 0 <= i < |qs| ensures AnswerTo(Start(), qs, i) != KcmpFailed { }
    if TallyAt(qs, |qs|).count < U32 {
      forall i, j | 0 <= i < j < |qs| && AnswerTo(Start(), qs, i).Id? && AnswerTo(Start(), qs, j).Id?
                    && AnswerTo(Start(), qs, i).isNew && AnswerTo(Start(), qs, j).isNew
        ensures AnswerTo(Start(), qs, i).id != AnswerTo(Start(), qs, j).id
      {
        DrawnOnce(qs, i, j);
      }
    }
  }

  lemma {:induction false} DrewZero(qs: seq<Request>, n: nat) returns (i: nat)
    requires n <= |qs| && StateAt(Start(), qs, n).ids.next > U32
    ensures i < n && AnswerTo(Start(), qs, i) == Id(0, true)
  {
    if StateAt(Start(), qs, n - 1).ids.next > U32 {
      i := DrewZero(qs, n - 1);
    } else {
      i := n - 1;
      assert StateAt(Start(), qs, i).ids.next == U32;
    }
  }

  /** The counter stays within 32 bits exactly when every number drawn is non-zero. */
  lemma NoWrapExactlyWhen(qs: seq<Request>)
    ensures NoWrap(qs) <==> forall i :: 0 <= i < |qs| ==> AnswerTo(Start(), qs, i) != Id(0, true)
  {
    if NoWrap(qs) {
      forall i | 0 <= i < |qs| ensures AnswerTo(Start(), qs, i) != Id(0, true) { RequestAt(qs, i); }
    } else {
      var i := DrewZero(qs, |qs|);
    }
  }

  /** A file, then 2^32 - 1 special files without fd_parms, then another file. */
  ghost function LongRun(f: Request, g: Request): (qs: seq<Request>)
    ensures |qs| == U32 + 1 && qs[0] == f && qs[U32] == g && forall i :: 0 < i < U32 ==> qs[i] == Special(None)
  {
    [f] + seq(U32 - 1, _ => Special(None)) + [g]
  }

  lemma {:induction false} LongRunState(f: Request, g: Request, i: nat)
    requires f.File? && 0 < i <= U32
    ensures StateAt(Start(), LongRun(f, g), i).ids == Ids(map[(f.genid, f.obj) := 1], i + 1)
    decreases i
  {
    if i == 1 {
      assert StateAt(Start(), LongRun(f, g), 0) == Start();
      NoRemainder(1);
    } else {
      LongRunState(f, g, i - 1);
      assert LongRun(f, g)[i - 1] == Special(None);
    }
  }

  /** On that run the 2^32th number is 0, and two files that are not one object get the same id. */
  lemma WrapCollides(f: Request, g: Request)
    requires f.File? && g.File? && (f.genid, f.obj) != (g.genid, g.obj)
    ensures var qs := LongRun(f, g);
            && AnswerTo(Start(), qs, 0) == Id(1, true) && AnswerTo(Start(), qs, U32 - 1) == Id(0, true)
            && AnswerTo(Start(), qs, U32) == Id(1, true)
  {
    var qs := LongRun(f, g);
    assert StateAt(Start(), qs, 0) == Start();
    NoRemainder(1);
    LongRunState(f, g, U32 - 1);
    LongRunState(f, g, U32);
    assert (U32 + 1) % U32 == 1;
  }
}
