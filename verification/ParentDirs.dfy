/**
 Creating missing parent directories and removing them again (criu/files-reg.c).

 The path is a C string edited in place: a slash is overwritten with NUL to name a parent. A file
 system is the set of paths that exist below the root; the empty path is the root itself.
 */
module ParentDirs {

  const NUL := '\0'

  /** No NUL inside, no empty component but before a leading slash. */
  ghost predicate Normal(s: string) {
    && NUL !in s
    && (forall i :: 0 < i < |s| ==> !(s[i - 1] == '/' && s[i] == '/'))
    && (s != [] ==> s[|s| - 1] != '/')
  }

  /** The C string in a buffer. */
  function CStr(s: string): string {
    if s == [] || s[0] == NUL then [] else [s[0]] + CStr(s[1..])
  }

  lemma {:induction false} CStrEnds(s: string, p: nat)
    requires p <= |s| && NUL !in s[..p] && (p < |s| ==> s[p] == NUL)
    ensures CStr(s) == s[..p]
  {
    if p > 0 {
      assert s[0] == s[..p][0] && s[1..][..p - 1] == s[..p][1..];
      CStrEnds(s[1..], p - 1);
      assert s[..p] == [s[0]] + s[1..][..p - 1];
    }
  }

  /** The last slash before i, or -1. */
  function PrevSlash(s: string, i: nat): (p: int)
    requires i <= |s|
    ensures -1 <= p < i && (p >= 0 ==> s[p] == '/') && forall k :: p < k < i ==> s[k] != '/'
  {
    if i == 0 then -1 else if s[i - 1] == '/' then i - 1 else PrevSlash(s, i - 1)
  }

  /** Everything above an existing path exists. */
  ghost predicate Closed(dirs: set<string>) {
    forall d, k {:trigger d[..k], d in dirs} :: d in dirs && 0 < k < |d| && d[k] == '/' ==> d[..k] in dirs
  }

  predicate Below(q: string, p: string) { |p| < |q| && p <= q && q[|p|] == '/' }

  predicate IsEmpty(dirs: set<string>, p: string) { forall q :: q in dirs ==> !Below(q, p) }

  /** The parents of the path from the slash at c on. */
  ghost function Parents(s: string, c: int): set<string> {
    set k | 0 <= k < |s| && c <= k && s[k] == '/' :: s[..k]
  }

  /** How many slashes there are from c up to i. */
  ghost function Slashes(s: string, c: nat, i: nat): nat
    requires i <= |s|
  {
    if i <= c then 0 else Slashes(s, c, i - 1) + if s[i - 1] == '/' then 1 else 0
  }

  /** The slash reached from i by going back count slashes, -1 if there are not so many. */
  ghost function Back(s: string, i: nat, count: nat): int
    requires i <= |s|
    decreases count
  {
    if count == 0 then i else if PrevSlash(s, i) < 0 then -1 else Back(s, PrevSlash(s, i), count - 1)
  }

  lemma {:induction false} BackBySlashes(s: string, c: nat, i: nat)
    requires c < i <= |s| && s[c] == '/'
    ensures Slashes(s, c, i) > 0 && Back(s, i, Slashes(s, c, i)) == c
    decreases i
  {
    if i - 1 > c {
      BackBySlashes(s, c, i - 1);
    }
  }

  lemma ParentsStep(s: string, p: nat, cur: nat)
    requires p < cur <= |s| && s[p] == '/' && forall k :: p < k < cur ==> s[k] != '/'
    ensures Parents(s, p) == Parents(s, cur) + {s[..p]} && s[..p] !in Parents(s, cur)
  {
    forall d ensures d in Parents(s, p) <==> d in Parents(s, cur) + {s[..p]} {
      if d in Parents(s, p) {
        var k :| 0 <= k < |s| && p <= k && s[k] == '/' && d == s[..k];
      }
    }
    forall d | d in Parents(s, cur) ensures |d| > p {
      var k :| 0 <= k < |s| && cur <= k && s[k] == '/' && d == s[..k];
    }
  }

  /** The parents from c on are there, and nothing else is below them: they can be removed, deepest first. */
  ghost predicate Removable(dirs: set<string>, s: string, c: int) {
    && (forall k {:trigger s[..k]} :: 0 <= k < |s| && c <= k && s[k] == '/' ==> s[..k] in dirs)
    && (forall q, k {:trigger Below(q, s[..k])} :: q in dirs && 0 <= k < |s| && c <= k && s[k] == '/' && Below(q, s[..k]) ==>
          q in Parents(s, k + 1))
  }

  lemma CanRemove(dirs: set<string>, s: string, c: int, p: nat, cur: nat)
    requires Removable(dirs, s, c) && p < cur <= |s| && c <= p && s[p] == '/' && forall k :: p < k < cur ==> s[k] != '/'
    ensures s[..p] in dirs - Parents(s, cur) && IsEmpty(dirs - Parents(s, cur), s[..p])
  {
    ParentsStep(s, p, cur);
    assert Parents(s, p + 1) == Parents(s, cur);
  }

  /** The first slash from p on that ends a parent which is missing and cannot be made; -1 if there is none. */
  function FirstRefused(dirs: set<string>, refused: set<string>, s: string, p: nat): (q: int)
    ensures -1 <= q < |s| && (q >= 0 ==> p <= q && 0 < q && s[q] == '/' && s[..q] !in dirs && s[..q] in refused)
    decreases |s| - p
  {
    if p >= |s| then -1
    else if 0 < p && s[p] == '/' && s[..p] !in dirs && s[..p] in refused then p
    else FirstRefused(dirs, refused, s, p + 1)
  }

  lemma {:induction false} SkipTo(dirs: set<string>, refused: set<string>, s: string, p: nat, q: nat)
    requires p <= q <= |s| && forall k :: p <= k < q ==> k == 0 || s[k] != '/'
    ensures FirstRefused(dirs, refused, s, p) == FirstRefused(dirs, refused, s, q)
    decreases q - p
  {
    if p < q { SkipTo(dirs, refused, s, p + 1, q); }
  }

  /** The path will stay cut: its parent is missing, and so is one before it that cannot be made. */
  predicate StaysCut(dirs: set<string>, refused: set<string>, unreadable: set<string>, s: string) {
    var last, q := PrevSlash(s, |s|), FirstRefused(dirs, refused, s, 0);
    0 <= q < last && s[..last] !in unreadable && s[..last] !in dirs
  }

  datatype Made = Created | Exists | Failed

  class Tree {
    var dirs: set<string>
    /** paths on which mkdirat fails, for whatever reason, unless they exist */
    const refused: set<string>
    /** paths on which fstatat fails with something other than ENOENT */
    const unreadable: set<string>

    constructor (dirs: set<string>, refused: set<string>, unreadable: set<string>)
      ensures this.dirs == dirs && this.refused == refused && this.unreadable == unreadable
    {
      this.dirs, this.refused, this.unreadable := dirs, refused, unreadable;
    }

    /** the path names something */
    predicate Stat(p: string)
      reads this
    {
      p == [] || p in dirs
    }

    /** mkdirat */
    method Mkdir(p: string) returns (r: Made)
      modifies this
      ensures r == if old(Stat(p)) then Exists else if p in refused then Failed else Created
      ensures dirs == if r == Created then old(dirs) + {p} else old(dirs)
    {
      if Stat(p) {
        return Exists;
      }
      if p in refused {
        return Failed;
      }
      dirs := dirs + {p};
      return Created;
    }

    /** unlinkat(AT_REMOVEDIR): only an empty directory goes. */
    method Rmdir(p: string) returns (ok: bool)
      modifies this
      ensures ok <==> p in old(dirs) && IsEmpty(old(dirs), p)
      ensures dirs == if ok then old(dirs) - {p} else old(dirs)
    {
      ok := p in dirs && IsEmpty(dirs, p);
      if ok {
        dirs := dirs - {p};
      }
    }

    /** strrchr(path, '/') when the string s in the buffer is cut at i, or not at all */
    method StrRChr(path: array<char>, ghost s: string, ghost i: nat) returns (p: int)
      requires NUL !in s && i <= |s| <= path.Length && (|s| < path.Length ==> path[|s|] == NUL)
      requires forall k :: 0 <= k < |s| ==> path[k] == if k == i then NUL else s[k]
      ensures p == PrevSlash(s, i)
    {
      var n := 0;
      p := -1;
      while n < path.Length && path[n] != NUL
        invariant 0 <= n <= i && p == PrevSlash(s, n)
      {
        if path[n] == '/' {
          p := n;
        }
        n := n + 1;
      }
    }

    /** One round of rm_parent_dirs: cut one component off, put the last slash back, remove the directory. */
    method RmOne(path: array<char>, prev: int, ghost s: string, ghost path0: string, ghost cur: nat) returns (p: int, ok: bool)
      requires Normal(s) && Buffer(path0, s) && At(path[..], path0, s, cur) && prev == (if cur == |s| then -1 else cur)
      modifies this, path
      ensures p == PrevSlash(s, cur)
      ensures p < 0 ==> path[..] == old(path[..]) && dirs == old(dirs)
      ensures p >= 0 ==> At(path[..], path0, s, p)
      ensures p >= 0 ==> (ok <==> s[..p] in old(dirs) && IsEmpty(old(dirs), s[..p]))
      ensures p >= 0 ==> dirs == if ok then old(dirs) - {s[..p]} else old(dirs)
    {
      p := StrRChr(path, s, cur);
      if p < 0 {
        return p, false;
      }
      assert !(prev >= 0 && prev - p == 1);
      Cut(path, p, prev, path0);
      assert path[..][..p] == s[..p];
      CStrEnds(path[..], p);
      ok := Rmdir(CStr(path[..]));
    }

    /** rm_parent_dirs: the path is left as it was; count parents are removed, the deepest ones. */
    method RmParentDirs(path: array<char>, count0: nat, ghost s: string) returns (ret: int)
      requires Normal(s) && Buffer(path[..], s)
      modifies this, path
      ensures path[..] == old(path[..]) && (ret == 0 || ret == -1)
      ensures ret == 0 ==> Back(s, |s|, count0) >= 0 && dirs == old(dirs) - Parents(s, Back(s, |s|, count0))
      ensures Back(s, |s|, count0) >= 0 && Removable(old(dirs), s, Back(s, |s|, count0)) ==> ret == 0
    {
      NoParents(s);
      var count, prev := count0, -1;
      ghost var cur: nat, c := |s|, Back(s, |s|, count0);
      ghost var dirs0, path0 := dirs, path[..];
      while count > 0
        invariant 0 <= count <= count0 && At(path[..], path0, s, cur) && prev == (if cur == |s| then -1 else cur)
        invariant Back(s, cur, count) == c && dirs == dirs0 - Parents(s, cur)
      {
        count := count - 1;
        RemoveNext(dirs0, s, c, cur, count);
        var p, ok := RmOne(path, prev, s, path0, cur);
        if p < 0 {
          PutBack(path, prev, path0);
          return -1;
        }
        prev, cur := p, p;
        if !ok {
          PutBack(path, prev, path0);
          return -1;
        }
      }
      PutBack(path, prev, path0);
      return 0;
    }

    method PutBack(path: array<char>, prev: int, ghost path0: string)
      requires -1 <= prev < path.Length == |path0| && path[..] == (if prev >= 0 then path0[prev := NUL] else path0)
      requires prev >= 0 ==> path0[prev] == '/'
      modifies path
      ensures path[..] == path0
    {
      if prev >= 0 {
        path[prev] := '/';
      }
    }

    /** Write NUL at p and put the slash back at prev. */
    method Cut(path: array<char>, p: nat, prev: int, ghost path0: string)
      requires |path0| == path.Length && p < path.Length && (prev >= 0 ==> p < prev < path.Length && path0[prev] == '/')
      requires path[..] == (if prev >= 0 then path0[prev := NUL] else path0)
      modifies path
      ensures path[..] == path0[p := NUL]
    {
      path[p] := NUL;
      if prev >= 0 {
        path[prev] := '/';
      }
    }

    /** strchr(path + from, '/') when the string s in the buffer is cut at last: the next slash before last, or -1 */
    method StrChr(path: array<char>, from: nat, ghost s: string, ghost last: nat) returns (q: int)
      requires NUL !in s && from <= last < |s| == path.Length && path[..] == s[last := NUL]
      ensures -1 <= q < last && (q >= 0 ==> from <= q && s[q] == '/' && forall k :: from <= k < q ==> s[k] != '/')
      ensures q < 0 ==> forall k :: from <= k < last ==> s[k] != '/'
    {
      q := from;
      while path[q] != NUL
        invariant from <= q <= last && forall k :: from <= k < q ==> s[k] != '/'
        decreases last - q
      {
        assert path[q] == path[..][q] == s[q];
        if path[q] == '/' {
          return q;
        }
        q := q + 1;
      }
      assert path[q] == path[..][q];
      return -1;
    }

    /** The failing branch: remove what was created so far; the path stays cut at q. */
    method UndoCreated(path: array<char>, ghost dirs0: set<string>, ghost s: string, ghost p: nat, ghost q: nat, count: nat, ghost c: nat)
      requires Normal(s) && Closed(dirs0) && p <= q < |s| == path.Length && s[q] == '/' && (forall k :: p <= k < q ==> s[k] != '/')
      requires Built(dirs0, dirs, s, p, count, c) && 0 < q && Buffer(path[..], s[..q])
      modifies this, path
      ensures dirs == dirs0 && path[..] == old(path[..])
    {
      ghost var t := s[..q];
      if count > 0 {
        BuiltShort(dirs0, s, p, c, q);
        BackBySlashes(t, c, q);
        BuiltRemovable(dirs0, t, c);
        assert dirs == dirs0 + Parents(t, c);
      } else {
        NoParents(t);
      }
      assert Normal(t) by { ShorterNormal(s, q); }
      var ret := RmParentDirs(path, count, t);
    }

    /** One directory of the path: the name is cut off at q, or at the last slash, and put back unless mkdir fails. */
    method MakeOne(path: array<char>, q: nat, cutHere: bool, ghost s: string, ghost last: nat) returns (r: Made)
      requires NUL !in s && q <= last < |s| == path.Length && path[..] == s[last := NUL] && s[last] == '/' && s[q] == '/'
      requires cutHere <==> q < last
      modifies this, path
      ensures r == if s[..q] == [] || s[..q] in old(dirs) then Exists else if s[..q] in refused then Failed else Created
      ensures dirs == if r == Created then old(dirs) + {s[..q]} else old(dirs)
      ensures path[..] == if r == Failed && q < last then s[last := NUL][q := NUL] else s[last := NUL]
    {
      if cutHere {
        path[q] := NUL;
      }
      assert path[..][..q] == s[..q] && path[..][q] == NUL;
      CStrEnds(path[..], q);
      r := Mkdir(CStr(path[..]));
      if r != Failed && cutHere {
        path[q] := '/';
      }
      assert path[..] == if r == Failed && q < last then s[last := NUL][q := NUL] else s[last := NUL];
    }

    /** One round of the loop: make the directory up to the next slash, and undo everything when that fails. */
    method MakeNext(path: array<char>, p: nat, count: nat, ghost c: nat, ghost dirs0: set<string>, ghost s: string, last: nat)
      returns (failed: bool, to: nat, count': nat, ghost c': nat)
      requires Normal(s) && Closed(dirs0) && 0 < last < |s| == path.Length && path[..] == s[last := NUL] && s[last] == '/'
      requires s[..last] !in dirs0 && p <= last && (p == 0 ==> s[0] != '/') && Built(dirs0, dirs, s, p, count, c)
      modifies this, path
      ensures p <= to <= last
      ensures failed ==> dirs == dirs0 && FirstRefused(dirs0, refused, s, p) == to
      ensures path[..] == if failed && to < last then s[last := NUL][to := NUL] else s[last := NUL]
      ensures !failed ==> Built(dirs0, dirs, s, to + 1, count', c') && (to == last ==> count' > 0)
      ensures !failed ==> FirstRefused(dirs0, refused, s, p) == FirstRefused(dirs0, refused, s, to + 1)
    {
      var q := StrChr(path, p, s, last);
      to := if q >= 0 then q else last;
      BuiltNext(dirs0, dirs, s, p, count, c, to);
      SkipTo(dirs0, refused, s, p, to);
      if count > 0 { MissingBelow(dirs0, s, c, last); }
      var r := MakeOne(path, to, q >= 0, s, last);
      failed, count', c' := r == Failed, count, c;
      if failed {
        Cutting(s, last, to);
        UndoCreated(path, dirs0, s, p, to, count, c);
      } else if r == Created {
        c' := if count == 0 then to else c;
        count' := count + 1;
      }
    }

    /** The loop of make_parent_dirs_if_need, with the path cut at its last slash. */
    method MakeAll(path: array<char>, start: nat, ghost s: string, last: nat) returns (ret: int, ghost c: nat)
      requires Normal(s) && Closed(dirs) && 0 < last < |s| == path.Length && path[..] == s[last := NUL] && s[last] == '/'
      requires s[..last] !in dirs && start == (if s[0] == '/' then 1 else 0) && start <= last
      requires forall k :: last < k < |s| ==> s[k] != '/'
      modifies this, path
      ensures ret == -1 || (0 < ret && 0 < c <= last && s[c] == '/' && s[..c] !in old(dirs)
                            && dirs == old(dirs) + Parents(s[..last + 1], c) && ret == Slashes(s[..last + 1], c, last + 1))
      ensures ret == -1 ==> dirs == old(dirs)
      ensures ret == -1 <==> FirstRefused(old(dirs), refused, s, 0) >= 0
      ensures var q := FirstRefused(old(dirs), refused, s, 0);
              q <= last && path[..] == if 0 <= q < last then s[last := NUL][q := NUL] else s[last := NUL]
    {
      ghost var dirs0 := dirs;
      c := 0;
      var p, count: nat, failed, to := start, 0, false, 0;
      SkipTo(dirs0, refused, s, 0, start);
      while p <= last
        invariant 0 <= p <= last + 1 && path[..] == s[last := NUL] && (p == 0 ==> s[0] != '/')
        invariant Built(dirs0, dirs, s, p, count, c) && (p == last + 1 ==> count > 0)
        invariant FirstRefused(dirs0, refused, s, 0) == FirstRefused(dirs0, refused, s, p)
      {
        failed, to, count, c := MakeNext(path, p, count, c, dirs0, s, last);
        if failed {
          return -1, c;
        }
        p := to + 1;
      }
      SkipTo(dirs0, refused, s, p, |s|);
      ret := count;
    }

    /**
     make_parent_dirs_if_need. On success the missing parents, the deepest ones, were created and counted.
     It fails exactly when the parent cannot be looked at or one of the missing ones cannot be made, and
     then none is left. The path is as it was, except that it stays cut at the first parent that could
     not be made if that is not the last one.
     */
    method MakeParentDirsIfNeed(path: array<char>) returns (ret: int, ghost c: nat)
      requires Normal(path[..]) && Closed(dirs)
      modifies this, path
      ensures var s := old(path[..]);
              var last := PrevSlash(s, |s|);
              var q := FirstRefused(old(dirs), refused, s, 0);
              && (ret > 0 ==> 0 < c < |s| && s[c] == '/' && ret == Slashes(s, c, |s|) && s[..c] !in old(dirs)
                              && dirs == old(dirs) + Parents(s, c))
              && (ret <= 0 ==> dirs == old(dirs)) && ret >= -1
              && (ret == 0 <==> last < 0 || (s[..last] !in unreadable && (s[..last] == [] || s[..last] in old(dirs))))
              && (ret == -1 <==> last >= 0 && (s[..last] in unreadable || (s[..last] != [] && s[..last] !in old(dirs) && q >= 0)))
              && path[..] == if StaysCut(old(dirs), refused, unreadable, s) then s[q := NUL] else s
    {
      ghost var s, dirs0 := path[..], dirs;
      c := 0;
      var last := StrRChr(path, s, |s|);
      if last < 0 {
        return 0, c;
      }
      path[last] := NUL;
      assert path[..] == s[last := NUL];
      assert path[..][..last] == s[..last];
      CStrEnds(path[..], last);
      var parent := CStr(path[..]);
      if parent !in unreadable && Stat(parent) {
        path[last] := '/';
        assert path[..] == s;
        return 0, c;
      }
      if parent in unreadable {
        path[last] := '/';
        assert path[..] == s;
        return -1, c;
      }
      assert path[0] == path[..][0] && last > 0;
      var count;
      count, c := MakeAll(path, if path[0] == '/' then 1 else 0, s, last);
      ghost var q := FirstRefused(dirs0, refused, s, 0);
      path[last] := '/';
      if count < 0 {
        assert path[..] == if q < last then s[q := NUL] else s;
        return -1, c;
      }
      assert path[..] == s;
      AllBuilt(s, c, last);
      return count, c;
    }

    /** Removing as many parents as were made leaves tree and path exactly as they were. */
    method MakeThenRemove(path: array<char>) returns (made: int, removed: int)
      requires Normal(path[..]) && Closed(dirs)
      modifies this, path
      ensures made >= 0 ==> removed == 0 && dirs == old(dirs) && path[..] == old(path[..])
      ensures refused == {} && unreadable == {} ==> made >= 0
    {
      ghost var s, dirs0 := path[..], dirs;
      ghost var c;
      made, c := MakeParentDirsIfNeed(path);
      if made < 0 {
        return made, -1;
      }
      if made > 0 {
        BackBySlashes(s, c, |s|);
        BuiltRemovable(dirs0, s, c);
      }
      assert path[..][..|s|] == s;
      removed := RmParentDirs(path, made, s);
      NoParents(s);
    }
  }

  /** The buffer holds the C string s. */
  ghost predicate Buffer(path: string, s: string) {
    NUL !in s && |s| <= |path| && path[..|s|] == s && (|s| < |path| ==> path[|s|] == NUL)
  }

  /** The buffer path0 with the string s in it, cut at the slash at i, or whole. */
  ghost predicate At(path: string, path0: string, s: string, i: nat) {
    && i <= |s| <= |path0|
    && (i < |s| ==> s[i] == '/')
    && path == if i < |s| then path0[i := NUL] else path0
  }

  lemma RemoveNext(dirs: set<string>, s: string, c: int, cur: nat, count: nat)
    requires cur <= |s| && Back(s, cur, count + 1) == c
    ensures PrevSlash(s, cur) < 0 ==> c == -1
    ensures var p := PrevSlash(s, cur); p >= 0 ==>
      && Back(s, p, count) == c && Parents(s, p) == Parents(s, cur) + {s[..p]}
      && (c >= 0 && Removable(dirs, s, c) ==> s[..p] in dirs - Parents(s, cur) && IsEmpty(dirs - Parents(s, cur), s[..p]))
  {
    var p := PrevSlash(s, cur);
    if p >= 0 {
      ParentsStep(s, p, cur);
      if c >= 0 && Removable(dirs, s, c) {
        BackIsBefore(s, p, count);
        CanRemove(dirs, s, c, p, cur);
      }
    }
  }

  lemma NoParents(s: string)
    ensures Parents(s, |s|) == {}
  {
  }

  lemma {:induction false} BackIsBefore(s: string, i: nat, count: nat)
    requires i <= |s|
    ensures Back(s, i, count) <= i
    decreases count
  {
    if count > 0 && PrevSlash(s, i) >= 0 { BackIsBefore(s, PrevSlash(s, i), count - 1); }
  }

  /** Up to position p, count parents were created, from the slash at c on. */
  ghost predicate Built(dirs0: set<string>, dirs: set<string>, s: string, p: nat, count: nat, c: nat)
    requires p <= |s|
  {
    if count == 0 then
      dirs == dirs0 && forall k {:trigger s[..k]} :: 0 < k < p && s[k] == '/' ==> s[..k] in dirs0
    else
      0 < c < p && s[c] == '/' && s[..c] !in dirs0 && dirs == dirs0 + Parents(s[..p], c) && count == Slashes(s[..p], c, p)
  }

  /** What is below a missing directory is missing. */
  lemma MissingBelow(dirs: set<string>, s: string, c: nat, q: nat)
    requires Closed(dirs) && 0 < c <= q < |s| && s[c] == '/' && s[..c] !in dirs
    ensures s[..q] !in dirs
  {
    if c < q {
      var d := s[..q];
      assert d[c] == '/' && d[..c] == s[..c];
    }
  }

  lemma {:induction false} SlashesSame(s: string, t: string, c: nat, i: nat)
    requires i <= |s| && i <= |t| && s[..i] == t[..i]
    ensures Slashes(s, c, i) == Slashes(t, c, i)
    decreases i
  {
    if i > c {
      assert s[..i][..i - 1] == t[..i][..i - 1] && s[..i][i - 1] == t[..i][i - 1];
      SlashesSame(s, t, c, i - 1);
    }
  }

  lemma {:induction false} NoSlashes(s: string, c: nat, p: nat, q: nat)
    requires c <= p <= q <= |s| && forall k :: p <= k < q ==> s[k] != '/'
    ensures Slashes(s, c, q) == Slashes(s, c, p)
    decreases q
  {
    if p < q { NoSlashes(s, c, p, q - 1); }
  }

  lemma SlashesGrow(s: string, c: nat, p: nat, q: nat)
    requires c <= p <= q < |s| && s[q] == '/' && forall k :: p <= k < q ==> s[k] != '/'
    ensures Slashes(s[..q + 1], c, q + 1) == Slashes(s[..p], c, p) + 1
  {
    var t := s[..q + 1];
    assert t[q] == '/';
    assert t[..p] == s[..p][..p];
    SlashesSame(t, s[..p], c, p);
    NoSlashes(t, c, p, q);
  }

  lemma ParentsGrow(s: string, c: nat, p: nat, q: nat)
    requires c <= q && p <= q < |s| && s[q] == '/' && forall k :: p <= k < q ==> s[k] != '/'
    ensures Parents(s[..q + 1], c) == Parents(s[..p], c) + {s[..q]}
  {
    var t, u := s[..q + 1], s[..p];
    forall d ensures d in Parents(t, c) <==> d in Parents(u, c) + {s[..q]} {
      if d in Parents(t, c) {
        var k :| 0 <= k < |t| && c <= k && t[k] == '/' && d == t[..k];
        assert t[..k] == s[..k];
        if k < q {
          assert k < p && u[k] == '/' && u[..k] == s[..k];
        }
      }
      if d in Parents(u, c) {
        var k :| 0 <= k < |u| && c <= k && u[k] == '/' && d == u[..k];
        assert t[k] == '/' && t[..k] == s[..k] == u[..k];
      }
      if d == s[..q] { assert t[q] == '/' && t[..q] == s[..q]; }
    }
  }

  /** The directory up to the next slash q was there or was created. */
  lemma BuiltNext(dirs0: set<string>, dirs: set<string>, s: string, p: nat, count: nat, c: nat, q: nat)
    requires Closed(dirs0) && p <= q < |s| && 0 < q && s[q] == '/' && (forall k :: p <= k < q ==> s[k] != '/')
    requires Built(dirs0, dirs, s, p, count, c)
    ensures s[..q] in dirs ==> count == 0 && Built(dirs0, dirs, s, q + 1, 0, c)
    ensures s[..q] !in dirs ==> Built(dirs0, dirs + {s[..q]}, s, q + 1, count + 1, if count == 0 then q else c)
  {
    if count == 0 {
      ParentsGrow(s, q, p, q);
      SlashesGrow(s, q, q, q);
      assert Parents(s[..p], q) == {};
    } else {
      MissingBelow(dirs0, s, c, q);
      ParentsGrow(s, c, p, q);
      SlashesGrow(s, c, p, q);
      forall d | d in Parents(s[..p], c) ensures |d| < p {
        var k :| 0 <= k < |s[..p]| && c <= k && s[..p][k] == '/' && d == s[..p][..k];
      }
    }
  }

  lemma AboveExists(dirs: set<string>, d: string)
    requires Closed(dirs) && d != []
    ensures forall q :: q in dirs && Below(q, d) ==> d in dirs
  {
    forall q | q in dirs && Below(q, d) ensures d in dirs { assert q[..|d|] == d; }
  }

  /** What was created can be removed. */
  lemma BuiltRemovable(dirs0: set<string>, s: string, c: nat)
    requires Closed(dirs0) && 0 < c < |s| && s[c] == '/' && s[..c] !in dirs0
    ensures Removable(dirs0 + Parents(s, c), s, c) && Parents(s, c) !! dirs0
  {
    var dirs := dirs0 + Parents(s, c);
    forall k | 0 <= k < |s| && c <= k && s[k] == '/' ensures s[..k] !in dirs0 { MissingBelow(dirs0, s, c, k); }
    forall q, k | q in dirs && 0 <= k < |s| && c <= k && s[k] == '/' && Below(q, s[..k]) ensures q in Parents(s, k + 1) {
      AboveExists(dirs0, s[..k]);
      if q !in dirs0 {
        var m :| 0 <= m < |s| && c <= m && s[m] == '/' && q == s[..m];
      }
    }
  }

  lemma BuiltShort(dirs0: set<string>, s: string, p: nat, c: nat, q: nat)
    requires c < p <= q < |s| && s[c] == '/' && forall k :: p <= k < q ==> s[k] != '/'
    ensures Parents(s[..p], c) == Parents(s[..q], c) && Slashes(s[..p], c, p) == Slashes(s[..q], c, q) && s[..q][..c] == s[..c]
  {
    var t, u := s[..q], s[..p];
    forall d ensures d in Parents(t, c) <==> d in Parents(u, c) {
      if d in Parents(t, c) {
        var k :| 0 <= k < |t| && c <= k && t[k] == '/' && d == t[..k];
        assert k < p && u[k] == '/' && u[..k] == t[..k];
      }
      if d in Parents(u, c) {
        var k :| 0 <= k < |u| && c <= k && u[k] == '/' && d == u[..k];
        assert t[k] == '/' && t[..k] == u[..k];
      }
    }
    SlashesSame(t, u, c, p);
    NoSlashes(t, c, p, q);
  }

  lemma ShorterNormal(s: string, q: nat)
    requires Normal(s) && 0 < q < |s| && s[q] == '/'
    ensures Normal(s[..q])
  {
    assert s[q - 1] != '/';
  }

  lemma Cutting(s: string, last: nat, q: nat)
    requires NUL !in s && q <= last < |s|
    ensures Buffer(if q < last then s[last := NUL][q := NUL] else s[last := NUL], s[..q])
  {
    var b := if q < last then s[last := NUL][q := NUL] else s[last := NUL];
    assert b[..q] == s[..q];
  }

  lemma AllBuilt(s: string, c: nat, last: nat)
    requires c <= last < |s| && forall k :: last < k < |s| ==> s[k] != '/'
    ensures Parents(s[..last + 1], c) == Parents(s, c) && Slashes(s[..last + 1], c, last + 1) == Slashes(s, c, |s|)
  {
    var t := s[..last + 1];
    forall d ensures d in Parents(t, c) <==> d in Parents(s, c) {
      if d in Parents(t, c) {
        var k :| 0 <= k < |t| && c <= k && t[k] == '/' && d == t[..k];
        assert s[k] == '/' && s[..k] == t[..k];
      }
      if d in Parents(s, c) {
        var k :| 0 <= k < |s| && c <= k && s[k] == '/' && d == s[..k];
        assert t[k] == '/' && t[..k] == s[..k];
      }
    }
    SlashesSame(s, t, c, last + 1);
    NoSlashes(s, c, last + 1, |s|);
  }

  /** The path "a/b/f" where a cannot be made: it comes back as "a", cut at its first slash. */
  method CutAtFirst() returns (ret: int, path: array<char>)
    ensures ret == -1 && path[..] == ['a', NUL, 'b', '/', 'f'] && CStr(path[..]) == "a"
  {
    path := new char[5](i requires 0 <= i < 5 => "a/b/f"[i]);
    var tree := new Tree({}, {"a"}, {});
    assert path[..] == "a/b/f";
    ghost var c;
    assert "a/b/f"[..1] == "a";
    assert PrevSlash("a/b/f", 5) == 3;
    ret, c := tree.MakeParentDirsIfNeed(path);
    CStrEnds(path[..], 1);
  }
}
