/**
 Descriptors of file mappings (criu/files-reg.c, criu/mem.c): neighbouring areas of one file share a
 descriptor, which is released after its last mapping.

 Every successful open gives a descriptor with a number of its own.
 */
module FilemapContext {
  import opened Wrappers

  /** What an area maps: a file with its open flags, or something else with a descriptor of its own. */
  datatype Request = File(desc: nat, flags: nat) | Other

  datatype Event = Open(fd: nat, what: Request) | Use(fd: nat, what: Request) | Close(fd: nat)

  type Table = map<nat, Request>

  /** The open descriptors after one event; nothing when the event is not allowed. */
  ghost function After(open: Option<Table>, e: Event): Option<Table> {
    if open == None then None
    else match e
      case Open(fd, what) => if fd in open.value then None else Some(open.value[fd := what])
      case Use(fd, what) => if fd in open.value && open.value[fd] == what then open else None
      case Close(fd) => if fd in open.value then Some(open.value - {fd}) else None
  }

  /** What was used, in order. */
  ghost function Uses(log: seq<Event>): seq<Request> {
    if log == [] then []
    else Uses(log[..|log| - 1]) + (if log[|log| - 1].Use? then [log[|log| - 1].what] else [])
  }

  lemma UsesOne(log: seq<Event>, e: Event)
    ensures Uses(log + [e]) == Uses(log) + (if e.Use? then [e.what] else [])
  {
    assert (log + [e])[..|log|] == log;
  }

  /** Descriptors are used only while open on the right file, and closed only when open. */
  ghost function Run(open: Option<Table>, log: seq<Event>): Option<Table> {
    if log == [] then open else After(Run(open, log[..|log| - 1]), log[|log| - 1])
  }

  lemma RunOne(open: Option<Table>, log: seq<Event>, e: Event)
    ensures Run(open, log + [e]) == After(Run(open, log), e)
  {
    assert (log + [e])[..|log|] == log;
  }

  lemma {:induction false} RunSplit(open: Option<Table>, a: seq<Event>, b: seq<Event>)
    ensures Run(open, a + b) == Run(Run(open, a), b)
    decreases |b|
  {
    if b == [] {
      assert a + b == a;
    } else {
      assert (a + b)[..|a + b| - 1] == a + b[..|b| - 1];
      RunSplit(open, a, b[..|b| - 1]);
    }
  }

  class Context {
    var desc: Option<nat>
    var flags: nat
    var fd: Option<nat>
    /** the area seen last, as its place in the list */
    var vma: Option<nat>
    var autoClose: bool

    var next: nat
    var log: seq<Event>
    /** VMA_CLOSE, per area */
    var closeBit: seq<bool>
    /** Opening a file does not fail. */
    const reliable: bool

    constructor (areas: nat, reliable: bool)
      ensures next == 0 && log == [] && closeBit == seq(areas, _ => false) && this.reliable == reliable
    {
      next, log, closeBit := 0, [], seq(areas, _ => false);
      this.reliable := reliable;
    }

    /** filemap_ctx_init; the flags may remain any */
    method Init(auto: bool)
      modifies this
      ensures desc == None && fd == None && vma == None && autoClose == auto
      ensures unchanged(this`next) && unchanged(this`log) && unchanged(this`closeBit)
    {
      desc, fd, vma, autoClose := None, None, None, auto;
    }

    /** filemap_ctx_fini */
    method Fini()
      requires !autoClose && vma.Some? ==> vma.value < |closeBit|
      modifies this`log, this`closeBit
      ensures log == if autoClose && fd.Some? then old(log) + [Close(fd.value)] else old(log)
      ensures closeBit == if !autoClose && vma.Some? then old(closeBit)[vma.value := true] else old(closeBit)
    {
      if autoClose {
        if fd.Some? {
          log := log + [Close(fd.value)];
        }
      } else {
        if vma.Some? {
          closeBit := closeBit[vma.value := true];
        }
      }
    }

    /** open_filemap for area i; an open that fails leaves everything as it is. */
    method OpenFilemap(q: Request, i: nat) returns (ok: bool)
      requires q.File? && i < |closeBit| && (vma.Some? ==> vma.value < |closeBit|)
      modifies this
      ensures unchanged(this`autoClose)
      ensures !ok ==> unchanged(this) && !reliable
      ensures ok ==> vma == Some(i) && desc == Some(q.desc) && flags == q.flags
      ensures ok && old(desc) == Some(q.desc) && old(flags) == q.flags ==>
        fd == old(fd) && unchanged(this`next) && unchanged(this`log) && unchanged(this`closeBit)
      ensures ok && !(old(desc) == Some(q.desc) && old(flags) == q.flags) ==>
        && fd == Some(old(next)) && next == old(next) + 1
        && log == old(log) + [Open(old(next), q)] + (if autoClose && old(fd).Some? then [Close(old(fd).value)] else [])
        && closeBit == if !autoClose && old(vma).Some? then old(closeBit)[old(vma).value := true] else old(closeBit)
    {
      if flags != q.flags || desc != Some(q.desc) {
        var fails := *;
        if fails && !reliable {
          return false;
        }
        var ret := next;
        next, log := next + 1, log + [Open(ret, q)];
        Fini();
        flags, desc, fd := q.flags, Some(q.desc), Some(ret);
      }
      vma := Some(i);
      return true;
    }

    // Closing as we go.

    /** At most the descriptor of the context is open, on the context's file. */
    ghost predicate AutoValid()
      reads this
    {
      && autoClose && (desc.Some? <==> fd.Some?)
      && (fd.Some? ==> fd.value < next)
      && Run(Some(map[]), log) == Some(if fd.Some? then map[fd.value := File(desc.value, flags)] else map[])
    }

    /** open_filemap and the mmap that follows it */
    method MapFile(q: Request, i: nat) returns (ok: bool)
      requires AutoValid() && q.File? && i < |closeBit| && (vma.Some? ==> vma.value < |closeBit|)
      modifies this
      ensures AutoValid() && |closeBit| == |old(closeBit)| && (vma.Some? ==> vma.value < |closeBit|)
      ensures !ok ==> !reliable && log == old(log)
      ensures ok ==> fd.Some? && log != [] && log[|log| - 1] == Use(fd.value, q) && Uses(log) == Uses(old(log)) + [q]
    {
      ghost var log0, open0, next0, fd0 := log, Run(Some(map[]), log), next, fd;
      ok := OpenFilemap(q, i);
      if !ok {
        return;
      }
      if log != log0 {
        Reopened(log0, open0.value, next0, q, fd0);
        NothingUsed(log0, next0, q, fd0);
      }
      UsesOne(log, Use(fd.value, q));
      RunOne(Some(map[]), log, Use(fd.value, q));
      log := log + [Use(fd.value, q)];
    }

    /** premap_priv_vmas: whatever happens on the way, in the end every descriptor was closed once, after its last use. */
    method PremapFiles(qs: seq<Request>) returns (ok: bool)
      requires log == [] && |closeBit| == |qs| && forall i :: 0 <= i < |qs| ==> qs[i].File?
      modifies this
      ensures Run(Some(map[]), log) == Some(map[])
      ensures (reliable ==> ok) && (ok ==> Uses(log) == qs)
    {
      Init(true);
      ok := true;
      var i := 0;
      while i < |qs| && ok
        invariant i <= |qs| && AutoValid() && |closeBit| == |qs| && (vma.Some? ==> vma.value < |closeBit|)
        invariant ok ==> Uses(log) == qs[..i]
        invariant !ok ==> !reliable
      {
        ok := MapFile(qs[i], i);
        i := i + 1;
      }
      if fd.Some? {
        RunOne(Some(map[]), log, Close(fd.value));
        UsesOne(log, Close(fd.value));
      }
      Fini();
    }

    // Leaving it to the restorer.

    ghost predicate DeferredValid(qs: seq<Request>, fdOf: seq<nat>)
      reads this
    {
      && !autoClose && |fdOf| <= |qs| == |closeBit| && (desc.Some? <==> fd.Some?) && (vma.Some? <==> fd.Some?)
      && Opened(Run(Some(map[]), log), qs, fdOf, next)
      && (forall k :: |fdOf| <= k < |qs| ==> !closeBit[k])
      && Marked(fdOf, closeBit, fd)
      && (fd.Some? ==>
            && vma.value < |fdOf| && fdOf[vma.value] == fd.value && NoLater(fdOf, vma.value)
            && qs[vma.value] == File(desc.value, flags))
      && Shares(qs, fdOf) && (|fdOf| > 0 && qs[|fdOf| - 1].File? ==> vma == Some(|fdOf| - 1))
    }

    /** open_filemap for the next area of the list */
    method OpenFile(qs: seq<Request>, fdOf: seq<nat>) returns (ok: bool)
      requires DeferredValid(qs, fdOf) && |fdOf| < |qs| && qs[|fdOf|].File?
      modifies this
      ensures ok ==> fd.Some? && DeferredValid(qs, fdOf + [fd.value])
      ensures reliable ==> ok
    {
      var i := |fdOf|;
      ghost var log0, next0, fd0, vma0, bits0 := log, next, fd, vma, closeBit;
      ghost var same := desc == Some(qs[i].desc) && flags == qs[i].flags;
      ok := OpenFilemap(qs[i], i);
      if !ok {
        return;
      }
      Below(Run(Some(map[]), log0), qs, fdOf, next0);
      SharesMore(qs, fdOf, fd.value);
      if same {
        SharedOne(Run(Some(map[]), log), qs, fdOf, next, vma0.value);
        MarkShared(fdOf, closeBit, fd.value);
      } else {
        assert log == log0 + [Open(next0, qs[i])];
        RunOne(Some(map[]), log0, Open(next0, qs[i]));
        OpenedOne(Run(Some(map[]), log0), qs, fdOf, next0);
        MarkNew(fdOf, bits0, fd0, vma0, next0, closeBit);
      }
    }

    /** Any other area: a descriptor of its own, to be closed after it. */
    method OpenOther(qs: seq<Request>, fdOf: seq<nat>) returns (ok: bool, ret: nat)
      requires DeferredValid(qs, fdOf) && |fdOf| < |qs| && qs[|fdOf|] == Other
      modifies this
      ensures ok ==> DeferredValid(qs, fdOf + [ret])
      ensures reliable ==> ok
    {
      var fails := *;
      if fails && !reliable {
        return false, 0;
      }
      ret := next;
      RunOne(Some(map[]), log, Open(ret, Other));
      OpenedOne(Run(Some(map[]), log), qs, fdOf, next);
      Below(Run(Some(map[]), log), qs, fdOf, next);
      SharesMore(qs, fdOf, ret);
      MarkOther(fdOf, closeBit, fd, ret);
      next, log, closeBit := next + 1, log + [Open(ret, Other)], closeBit[|fdOf| := true];
      ok := true;
    }

    /** open_vmas: exactly the last area that uses a descriptor carries VMA_CLOSE. */
    method OpenVmas(qs: seq<Request>) returns (ok: bool, fdOf: seq<nat>)
      requires log == [] && closeBit == seq(|qs|, _ => false)
      modifies this
      ensures ok ==> |fdOf| == |closeBit| == |qs| && Opened(Run(Some(map[]), log), qs, fdOf, next) && Marked(fdOf, closeBit, None)
      ensures (reliable ==> ok) && (ok ==> Shares(qs, fdOf))
    {
      Init(false);
      fdOf := [];
      var i := 0;
      while i < |qs|
        invariant i == |fdOf| && DeferredValid(qs, fdOf)
      {
        if qs[i].File? {
          ok := OpenFile(qs, fdOf);
          if !ok {
            return;
          }
          fdOf := fdOf + [fd.value];
        } else {
          var ret;
          ok, ret := OpenOther(qs, fdOf);
          if !ok {
            return;
          }
          fdOf := fdOf + [ret];
        }
        i := i + 1;
      }
      Fini();
      ok := true;
    }
  }

  lemma NothingUsed(log: seq<Event>, next: nat, q: Request, fd: Option<nat>)
    ensures Uses(log + [Open(next, q)] + (if fd.Some? then [Close(fd.value)] else [])) == Uses(log)
  {
    UsesOne(log, Open(next, q));
    if fd.Some? {
      UsesOne(log + [Open(next, q)], Close(fd.value));
    } else {
      assert log + [Open(next, q)] + [] == log + [Open(next, q)];
    }
  }

  /** A new descriptor is opened before the old one is closed. */
  lemma Reopened(log: seq<Event>, open: Table, next: nat, q: Request, fd: Option<nat>)
    requires Run(Some(map[]), log) == Some(open) && next !in open && open.Keys == (if fd.Some? then {fd.value} else {})
    ensures Run(Some(map[]), log + [Open(next, q)] + (if fd.Some? then [Close(fd.value)] else [])) == Some(map[next := q])
  {
    RunOne(Some(map[]), log, Open(next, q));
    if fd.Some? {
      RunOne(Some(map[]), log + [Open(next, q)], Close(fd.value));
      assert open[next := q] - {fd.value} == map[next := q];
    } else {
      assert log + [Open(next, q)] + [] == log + [Open(next, q)];
      assert open[next := q] == map[next := q];
    }
  }

  /** Neighbouring areas of one file with the same flags have one descriptor. */
  ghost predicate Shares(qs: seq<Request>, fdOf: seq<nat>) {
    |fdOf| <= |qs| && forall i {:trigger fdOf[i]} :: 0 < i < |fdOf| && qs[i].File? && qs[i - 1] == qs[i] ==> fdOf[i] == fdOf[i - 1]
  }

  ghost predicate NoLater(fdOf: seq<nat>, k: nat)
    requires k < |fdOf|
  {
    forall j :: k < j < |fdOf| ==> fdOf[j] != fdOf[k]
  }

  /** The last area using a descriptor carries the bit, and no other; the descriptor in use has no bit yet. */
  ghost predicate Marked(fdOf: seq<nat>, closeBit: seq<bool>, fd: Option<nat>)
    requires |fdOf| <= |closeBit|
  {
    forall k {:trigger closeBit[k]} :: 0 <= k < |fdOf| ==> (closeBit[k] <==> NoLater(fdOf, k) && fd != Some(fdOf[k]))
  }

  /** Exactly the descriptors of the areas are open, each on its area's file. */
  ghost predicate Opened(open: Option<Table>, qs: seq<Request>, fdOf: seq<nat>, next: nat) {
    && open.Some? && |fdOf| <= |qs|
    && (forall d {:trigger d in open.value} :: d in open.value ==> d < next && d in fdOf)
    && (forall k {:trigger fdOf[k]} :: 0 <= k < |fdOf| ==> fdOf[k] in open.value && open.value[fdOf[k]] == qs[k])
  }

  lemma Below(open: Option<Table>, qs: seq<Request>, fdOf: seq<nat>, next: nat)
    requires Opened(open, qs, fdOf, next)
    ensures forall k :: 0 <= k < |fdOf| ==> fdOf[k] < next
  {
  }

  lemma SharesMore(qs: seq<Request>, fdOf: seq<nat>, d: nat)
    requires Shares(qs, fdOf) && |fdOf| < |qs|
    requires |fdOf| > 0 && qs[|fdOf|].File? && qs[|fdOf| - 1] == qs[|fdOf|] ==> d == fdOf[|fdOf| - 1]
    ensures Shares(qs, fdOf + [d])
  {
  }

  lemma OpenedOne(open: Option<Table>, qs: seq<Request>, fdOf: seq<nat>, next: nat)
    requires Opened(open, qs, fdOf, next) && |fdOf| < |qs|
    ensures Opened(After(open, Open(next, qs[|fdOf|])), qs, fdOf + [next], next + 1)
  {
  }

  lemma SharedOne(open: Option<Table>, qs: seq<Request>, fdOf: seq<nat>, next: nat, k: nat)
    requires Opened(open, qs, fdOf, next) && |fdOf| < |qs| && k < |fdOf| && qs[k] == qs[|fdOf|]
    ensures Opened(open, qs, fdOf + [fdOf[k]], next)
  {
  }

  lemma NoLaterMore(fdOf: seq<nat>, d: nat, k: nat)
    requires k < |fdOf|
    ensures NoLater(fdOf + [d], k) <==> NoLater(fdOf, k) && d != fdOf[k]
  {
    assert (fdOf + [d])[|fdOf|] == d;
    if NoLater(fdOf + [d], k) {
      forall j | k < j < |fdOf| ensures fdOf[j] != fdOf[k] { assert (fdOf + [d])[j] == fdOf[j]; }
    }
  }

  lemma MarkShared(fdOf: seq<nat>, closeBit: seq<bool>, fd: nat)
    requires |fdOf| < |closeBit| && Marked(fdOf, closeBit, Some(fd)) && !closeBit[|fdOf|]
    ensures Marked(fdOf + [fd], closeBit, Some(fd)) && NoLater(fdOf + [fd], |fdOf|)
  {
    forall k | 0 <= k < |fdOf| { NoLaterMore(fdOf, fd, k); }
  }

  lemma MarkNew(fdOf: seq<nat>, bits: seq<bool>, fd: Option<nat>, vma: Option<nat>, next: nat, bits': seq<bool>)
    requires |fdOf| < |bits| && Marked(fdOf, bits, fd) && !bits[|fdOf|] && (forall k :: 0 <= k < |fdOf| ==> fdOf[k] < next)
    requires (vma.Some? <==> fd.Some?) && (vma.Some? ==> vma.value < |fdOf| && fdOf[vma.value] == fd.value && NoLater(fdOf, vma.value))
    requires bits' == if vma.Some? then bits[vma.value := true] else bits
    ensures Marked(fdOf + [next], bits', Some(next)) && NoLater(fdOf + [next], |fdOf|)
  {
    forall k | 0 <= k < |fdOf| ensures bits'[k] <==> NoLater(fdOf + [next], k) && Some(next) != Some(fdOf[k]) {
      NoLaterMore(fdOf, next, k);
    }
  }

  lemma MarkOther(fdOf: seq<nat>, bits: seq<bool>, fd: Option<nat>, ret: nat)
    requires |fdOf| < |bits| && Marked(fdOf, bits, fd) && (forall k :: 0 <= k < |fdOf| ==> fdOf[k] < ret)
    requires fd.Some? ==> fd.value in fdOf
    ensures Marked(fdOf + [ret], bits[|fdOf| := true], fd)
  {
    forall k | 0 <= k < |fdOf| { NoLaterMore(fdOf, ret, k); }
  }

  /** The restorer maps the areas in order and closes where the bit says so. */
  ghost function Walk(qs: seq<Request>, fdOf: seq<nat>, closeBit: seq<bool>, i: nat): seq<Event>
    requires |qs| == |fdOf| == |closeBit| && i <= |qs|
    decreases |qs| - i
  {
    if i == |qs| then []
    else [Use(fdOf[i], qs[i])] + (if closeBit[i] then [Close(fdOf[i])] else []) + Walk(qs, fdOf, closeBit, i + 1)
  }

  /** Exactly the descriptors of the areas from i on are open. */
  ghost predicate OpenFrom(t: Table, qs: seq<Request>, fdOf: seq<nat>, i: nat)
    requires |qs| == |fdOf|
  {
    && (forall d {:trigger d in t} :: d in t ==> exists k :: i <= k < |fdOf| && fdOf[k] == d)
    && (forall k {:trigger fdOf[k]} :: i <= k < |fdOf| ==> fdOf[k] in t && t[fdOf[k]] == qs[k])
  }

  lemma WalkStep(t: Table, qs: seq<Request>, fdOf: seq<nat>, closeBit: seq<bool>, i: nat, t': Table)
    requires |qs| == |fdOf| == |closeBit| && i < |qs| && OpenFrom(t, qs, fdOf, i) && Marked(fdOf, closeBit, None)
    requires t' == if closeBit[i] then t - {fdOf[i]} else t
    ensures OpenFrom(t', qs, fdOf, i + 1)
  {
    forall d | d in t' ensures exists k :: i + 1 <= k < |fdOf| && fdOf[k] == d {
      var k :| i <= k < |fdOf| && fdOf[k] == d;
      if k == i {
        assert !NoLater(fdOf, i);
      }
    }
  }

  /** The restorer uses every descriptor while it is open and closes each exactly once. */
  lemma {:induction false} RestorerReleasesAll(t: Table, qs: seq<Request>, fdOf: seq<nat>, closeBit: seq<bool>, i: nat)
    requires |qs| == |fdOf| == |closeBit| && i <= |qs| && OpenFrom(t, qs, fdOf, i) && Marked(fdOf, closeBit, None)
    ensures Run(Some(t), Walk(qs, fdOf, closeBit, i)) == Some(map[])
    decreases |qs| - i
  {
    if i == |qs| {
      assert t == map[];
    } else {
      var use, more := [Use(fdOf[i], qs[i])], Walk(qs, fdOf, closeBit, i + 1);
      var t' := if closeBit[i] then t - {fdOf[i]} else t;
      WalkStep(t, qs, fdOf, closeBit, i, t');
      RestorerReleasesAll(t', qs, fdOf, closeBit, i + 1);
      RunOne(Some(t), [], Use(fdOf[i], qs[i]));
      assert [] + use == use;
      if closeBit[i] {
        RunOne(Some(t), use, Close(fdOf[i]));
        RunSplit(Some(t), use + [Close(fdOf[i])], more);
      } else {
        assert use + [] == use;
        RunSplit(Some(t), use, more);
      }
    }
  }

  /** Both halves: what open_vmas left behind is released by the restorer, nothing twice and nothing after its use. */
  lemma OpenedThenReleased(log: seq<Event>, qs: seq<Request>, fdOf: seq<nat>, closeBit: seq<bool>, next: nat)
    requires |qs| == |fdOf| == |closeBit| && Opened(Run(Some(map[]), log), qs, fdOf, next) && Marked(fdOf, closeBit, None)
    ensures Run(Some(map[]), log + Walk(qs, fdOf, closeBit, 0)) == Some(map[])
  {
    RunSplit(Some(map[]), log, Walk(qs, fdOf, closeBit, 0));
    RestorerReleasesAll(Run(Some(map[]), log).value, qs, fdOf, closeBit, 0);
  }
}
