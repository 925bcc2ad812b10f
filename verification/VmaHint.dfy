/**
 Finding a place for the restorer blob (restorer_get_vma_hint in criu/cr-restore.c).

 The blob must fit between the areas of the task and those of the restoring process itself.
 */
module VmaHint {

  datatype Area = Area(start: nat, end: nat)

  ghost predicate Sorted(s: seq<Area>) {
    && (forall i :: 0 <= i < |s| ==> s[i].start < s[i].end)
    && (forall i, j :: 0 <= i < j < |s| ==> s[i].end <= s[j].start)
  }

  predicate Apart(a: nat, len: nat, v: Area) { a + len <= v.start || v.end <= a }

  /** The range meets no area of the list but possibly the last. */
  predicate Clear(a: nat, len: nat, s: seq<Area>) {
    forall i :: 0 <= i < |s| - 1 ==> Apart(a, len, s[i])
  }

  predicate Free(a: nat, len: nat, tgt: seq<Area>, own: seq<Area>, minAddr: nat) {
    minAddr <= a && Clear(a, len, tgt) && Clear(a, len, own)
  }

  /** The range ends below the last area, or below the end of the address space. */
  predicate InBounds(a: nat, len: nat, s: seq<Area>, taskSize: nat)
    requires |s| > 0
  {
    a + len <= s[|s| - 1].start || a + len <= taskSize
  }

  /** No free address lies below prev. */
  ghost predicate NoneBelow(prev: nat, len: nat, tgt: seq<Area>, own: seq<Area>, minAddr: nat) {
    forall a :: 0 <= a && Free(a, len, tgt, own, minAddr) ==> prev <= a
  }

  /** How far the walk has come in one list; |s| is the end marker. */
  ghost predicate Walked(s: seq<Area>, c: nat, prev: nat, len: nat)
    requires |s| > 0
  {
    && c <= |s|
    && (forall i :: 0 <= i < c && i < |s| - 1 ==> s[i].end <= prev)
    && (c == |s| ==> prev + len > s[|s| - 1].start)
  }

  /** Where the area at the cursor starts. */
  function StartOf(s: seq<Area>, c: nat, taskSize: nat): nat
    requires c <= |s|
  {
    if c == |s| then taskSize else s[c].start
  }

  /** One list in the walk: past the area at the cursor, which is in the way of prev. None at the end marker. */
  method Advance(s: seq<Area>, c: nat, prev: nat) returns (stop: bool, c': nat, prev': nat)
    requires |s| > 0 && c <= |s|
    ensures stop <==> c == |s|
    ensures !stop ==> c' == c + 1 && prev' == if c < |s| - 1 && prev < s[c].end then s[c].end else prev
  {
    stop, c', prev' := false, c, prev;
    if c + 1 == |s| {
      c' := |s|;
    } else if c == |s| {
      stop := true;
    } else {
      if prev < s[c].end {
        prev' := s[c].end;
      }
      c' := c + 1;
    }
  }

  /** An area in the way rules out every address up to its end. */
  lemma StepOver(s: seq<Area>, c: nat, prev: nat, prev': nat, len: nat, tgt: seq<Area>, own: seq<Area>, minAddr: nat)
    requires (s == tgt || s == own) && Sorted(s) && c < |s| - 1 && len > 0 && prev + len > s[c].start
    requires NoneBelow(prev, len, tgt, own, minAddr) && prev' == if prev < s[c].end then s[c].end else prev
    ensures NoneBelow(prev', len, tgt, own, minAddr)
  {
    forall a: nat | Free(a, len, tgt, own, minAddr) ensures prev' <= a {
      assert Clear(a, len, s) && Apart(a, len, s[c]);
    }
  }

  lemma StopHere(s: seq<Area>, c: nat, prev: nat, len: nat, taskSize: nat)
    requires |s| > 0 && Sorted(s) && Walked(s, c, prev, len) && prev + len <= StartOf(s, c, taskSize)
    ensures Clear(prev, len, s) && InBounds(prev, len, s, taskSize)
  {
    forall i | 0 <= i < |s| - 1 ensures Apart(prev, len, s[i]) {
      if c <= i < |s| { assert s[c].start <= s[i].start; }
    }
    if c < |s| - 1 { assert s[c].end <= s[|s| - 1].start; }
  }

  /**
   The lowest free address if it is in bounds, -1 if no free address is. Only the areas before the last
   of each list count as obstacles.
   */
  method RestorerGetVmaHint(tgt: seq<Area>, own: seq<Area>, len: nat, taskSize: nat, minAddr: nat) returns (r: int)
    requires |tgt| > 0 && |own| > 0 && Sorted(tgt) && Sorted(own) && len > 0
    ensures r >= 0 ==> Free(r, len, tgt, own, minAddr) && InBounds(r, len, tgt, taskSize) && InBounds(r, len, own, taskSize)
    ensures r >= 0 ==> NoneBelow(r, len, tgt, own, minAddr)
    ensures r >= 0 ==> ((forall v :: v in tgt || v in own ==> Apart(r, len, v)) <==>
      LastIsSafe(tgt[|tgt| - 1], len, tgt, own, minAddr) && LastIsSafe(own[|own| - 1], len, tgt, own, minAddr))
    ensures r < 0 ==> r == -1 && forall a {:trigger Free(a, len, tgt, own, minAddr)} :: 0 <= a && Free(a, len, tgt, own, minAddr) ==>
      !(InBounds(a, len, tgt, taskSize) && InBounds(a, len, own, taskSize))
  {
    var prev: nat, cs: nat, ct: nat := minAddr, 0, 0;
    while true
      invariant Walked(own, cs, prev, len) && Walked(tgt, ct, prev, len) && NoneBelow(prev, len, tgt, own, minAddr) && minAddr <= prev
      decreases |own| - cs + |tgt| - ct
    {
      var stop: bool;
      if prev + len > StartOf(own, cs, taskSize) {
        if cs < |own| - 1 { StepOver(own, cs, prev, if prev < own[cs].end then own[cs].end else prev, len, tgt, own, minAddr); }
        stop, cs, prev := Advance(own, cs, prev);
        if stop {
          return -1;
        }
        continue;
      }
      if prev + len > StartOf(tgt, ct, taskSize) {
        if ct < |tgt| - 1 { StepOver(tgt, ct, prev, if prev < tgt[ct].end then tgt[ct].end else prev, len, tgt, own, minAddr); }
        stop, ct, prev := Advance(tgt, ct, prev);
        if stop {
          return -1;
        }
        continue;
      }
      StopHere(own, cs, prev, len, taskSize);
      StopHere(tgt, ct, prev, len, taskSize);
      MeetsNothingExactlyWhen(prev, len, tgt, own, minAddr);
      return prev;
    }
  }

  /** Where the least free address can be: the lowest address, or the end of an area that is not the last of its list. */
  function Candidates(tgt: seq<Area>, own: seq<Area>, minAddr: nat): set<nat> {
    {minAddr} + (set i | 0 <= i < |tgt| - 1 :: tgt[i].end) + (set i | 0 <= i < |own| - 1 :: own[i].end)
  }

  /** Any other free address could be lowered by one. */
  lemma LeastIsCandidate(r: nat, len: nat, tgt: seq<Area>, own: seq<Area>, minAddr: nat)
    requires Free(r, len, tgt, own, minAddr) && NoneBelow(r, len, tgt, own, minAddr)
    ensures r in Candidates(tgt, own, minAddr)
  {
    if r != minAddr {
      assert !Free(r - 1, len, tgt, own, minAddr);
      assert !Clear(r - 1, len, tgt) || !Clear(r - 1, len, own);
      var s := if !Clear(r - 1, len, tgt) then tgt else own;
      var i :| 0 <= i < |s| - 1 && !Apart(r - 1, len, s[i]);
      assert Apart(r, len, s[i]);
      assert s[i].end == r;
    }
  }

  /** A last area is safe: a free candidate fits below it, or all of them lie at or above its end. */
  predicate LastIsSafe(f: Area, len: nat, tgt: seq<Area>, own: seq<Area>, minAddr: nat) {
    || (exists c :: c in Candidates(tgt, own, minAddr) && Free(c, len, tgt, own, minAddr) && c + len <= f.start)
    || (forall c :: c in Candidates(tgt, own, minAddr) && Free(c, len, tgt, own, minAddr) ==> f.end <= c)
  }

  /** Whether the least free address is clear of an area can be told from the candidates. */
  lemma SafeExactlyWhenApart(r: nat, len: nat, tgt: seq<Area>, own: seq<Area>, minAddr: nat, f: Area)
    requires Free(r, len, tgt, own, minAddr) && NoneBelow(r, len, tgt, own, minAddr)
    ensures Apart(r, len, f) <==> LastIsSafe(f, len, tgt, own, minAddr)
  {
    LeastIsCandidate(r, len, tgt, own, minAddr);
  }

  /**
   The returned range meets no area at all exactly when the last area of each list is safe; stepping
   past a last area to the end marker does not make it an obstacle.
   */
  lemma MeetsNothingExactlyWhen(r: nat, len: nat, tgt: seq<Area>, own: seq<Area>, minAddr: nat)
    requires |tgt| > 0 && |own| > 0
    requires Free(r, len, tgt, own, minAddr) && NoneBelow(r, len, tgt, own, minAddr)
    ensures (forall v :: v in tgt || v in own ==> Apart(r, len, v)) <==>
      LastIsSafe(tgt[|tgt| - 1], len, tgt, own, minAddr) && LastIsSafe(own[|own| - 1], len, tgt, own, minAddr)
  {
    var f, g := tgt[|tgt| - 1], own[|own| - 1];
    SafeExactlyWhenApart(r, len, tgt, own, minAddr, f);
    SafeExactlyWhenApart(r, len, tgt, own, minAddr, g);
    assert f in tgt && g in own;
    if Apart(r, len, f) && Apart(r, len, g) {
      forall v | v in tgt || v in own ensures Apart(r, len, v) {
        if v in tgt {
          var i :| 0 <= i < |tgt| && tgt[i] == v;
        } else {
          var i :| 0 <= i < |own| && own[i] == v;
        }
      }
    }
  }

  /** A task with one area: the address returned for a blob of 8 pages lies across it. */
  method LastAreaHit() returns (r: int)
    ensures r == 5 && !Apart(5, 8, Area(10, 20))
    ensures !LastIsSafe(Area(10, 20), 8, [Area(10, 20)], [Area(0, 1)], 5)
  {
    var tgt, own := [Area(10, 20)], [Area(0, 1)];
    assert Free(5, 8, tgt, own, 5) && InBounds(5, 8, tgt, 100) && InBounds(5, 8, own, 100);
    r := RestorerGetVmaHint(tgt, own, 8, 100, 5);
    SafeExactlyWhenApart(5, 8, tgt, own, 5, Area(10, 20));
  }
}
