/**
 The pool of buffers behind buffered files (buf_get and buf_put in criu/bfd.c).

 A buffer is the number of its page; a buffered file is known by the number of its struct bfd.
 */
module BufferPool {
  import FiniteSums

  const BUFBATCH: nat := 16

  ghost predicate NoDuplicates(s: seq<nat>) {
    forall i, j :: 0 <= i < j < |s| ==> s[i] != s[j]
  }

  /** No two open files share a buffer. */
  ghost predicate Exclusive(held: map<nat, nat>) {
    forall f, g {:trigger held[f], held[g]} :: f in held && g in held && f != g ==> held[f] != held[g]
  }

  ghost predicate Accounted(free: seq<nat>, held: map<nat, nat>, b: nat) {
    b in free || exists f :: f in held && held[f] == b
  }

  /** Every buffer allocated is on the free list, once, or belongs to one open file. */
  ghost predicate Sound(free: seq<nat>, held: map<nat, nat>, total: nat) {
    && NoDuplicates(free) && Exclusive(held)
    && (forall b :: b in free ==> b < total)
    && (forall f {:trigger held[f]} :: f in held ==> held[f] < total && held[f] !in free)
    && (forall b {:trigger Accounted(free, held, b)} :: 0 <= b < total ==> Accounted(free, held, b))
  }

  lemma AddNew(free: seq<nat>, held: map<nat, nat>, total: nat)
    requires Sound(free, held, total)
    ensures Sound(free + [total], held, total + 1)
  {
    forall i | 0 <= i < |free| ensures free[i] != total { assert free[i] in free; }
    forall b: nat | b < total + 1 ensures Accounted(free + [total], held, b) {
      assert b < total ==> Accounted(free, held, b);
    }
  }

  lemma TakeFirst(free: seq<nat>, held: map<nat, nat>, total: nat, f: nat)
    requires Sound(free, held, total) && free != [] && f !in held
    ensures Sound(free[1..], held[f := free[0]], total)
  {
    var held' := held[f := free[0]];
    assert free == [free[0]] + free[1..];
    assert free[0] in free && free[0] !in free[1..];
    assert forall b :: b in free[1..] ==> b in free;
    forall b: nat | b < total ensures Accounted(free[1..], held', b) {
      assert Accounted(free, held, b);
      if b == free[0] {
        assert held'[f] == b;
      } else if b !in free {
        var g :| g in held && held[g] == b;
        assert held'[g] == b;
      }
    }
  }

  lemma GiveBack(free: seq<nat>, held: map<nat, nat>, total: nat, f: nat)
    requires Sound(free, held, total) && f in held
    ensures Sound([held[f]] + free, held - {f}, total)
  {
    var free', held' := [held[f]] + free, held - {f};
    forall b: nat | b < total ensures Accounted(free', held', b) {
      assert Accounted(free, held, b);
      if b != held[f] && b !in free {
        var g :| g in held && held[g] == b;
        assert g in held' && held'[g] == b;
      }
    }
  }

  /** Free and used buffers together are those allocated. */
  lemma Conserved(free: seq<nat>, held: map<nat, nat>, total: nat)
    requires Sound(free, held, total)
    ensures |free| + |held| == total
  {
    FiniteSums.Distinct(free);
    ManyValues(held);
    Count(total);
    forall b: nat | b < total ensures b in FiniteSums.Elems(free) + held.Values { assert Accounted(free, held, b); }
    assert Numbers(total) == FiniteSums.Elems(free) + held.Values;
  }

  ghost function Numbers(n: nat): (r: set<nat>)
    ensures forall b: nat :: b in r <==> b < n
  {
    if n == 0 then {} else Numbers(n - 1) + {n - 1}
  }

  lemma {:induction false} Count(n: nat)
    ensures |Numbers(n)| == n
  {
    if n > 0 { Count(n - 1); }
  }

  lemma {:induction false} ManyValues(held: map<nat, nat>)
    requires Exclusive(held)
    ensures |held.Values| == |held|
    decreases |held|
  {
    if held != map[] {
      var f :| f in held;
      var rest := held - {f};
      ManyValues(rest);
      assert held.Keys == rest.Keys + {f};
      assert rest.Values !! {held[f]};
      assert held.Values == rest.Values + {held[f]};
    }
  }

  class Pool {
    /** bufs: the buffers nobody uses */
    var free: seq<nat>
    /** the buffer of each open file; the mem of all other files is NULL */
    var held: map<nat, nat>
    var total: nat

    ghost predicate Valid()
      reads this
    {
      Sound(free, held, total)
    }

    constructor ()
      ensures Valid() && held == map[] && total == 0
    {
      free, held, total := [], map[], 0;
    }

    /** A batch of new buffers: none when memory runs out at once, fewer than BUFBATCH when it runs out later. */
    method Batch()
      requires Valid()
      modifies this`free, this`total
      ensures Valid() && total - old(total) == |free| - |old(free)| && 0 <= total - old(total) <= BUFBATCH
    {
      var n: nat :| n <= BUFBATCH;
      var i := 0;
      while i < n
        invariant i <= n && Valid() && total == old(total) + i && |free| == |old(free)| + i
      {
        AddNew(free, held, total);
        free, total := free + [total], total + 1;
        i := i + 1;
      }
    }

    /** buf_get for an opened file: it gets a buffer that nobody else has. */
    method Get(f: nat) returns (ok: bool)
      requires Valid() && f !in held
      modifies this
      ensures Valid()
      ensures ok ==> f in held && held - {f} == old(held) && forall g :: g in old(held) ==> held[g] != held[f]
      ensures !ok ==> held == old(held) && old(free) == []
    {
      if free == [] {
        Batch();
        if free == [] {
          return false;
        }
      }
      TakeFirst(free, held, total, f);
      held, free := held[f := free[0]], free[1..];
      return true;
    }

    /** buf_put on close, for a file that still has its buffer; a second close does nothing. */
    method Put(f: nat)
      requires Valid()
      modifies this
      ensures Valid() && held == old(held) - {f} && total == old(total)
    {
      if f in held {
        GiveBack(free, held, total, f);
        free, held := [held[f]] + free, held - {f};
      }
    }
  }
}
