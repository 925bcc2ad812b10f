/**
 Buffered files (criu/bfd.c): reading through a buffer, writing through a buffer, and the pool the
 buffers come from.

 The file behind a descriptor is the bytes still to be read, or the bytes written so far. read and
 write may always do less than asked, or fail.
 */
module BufferedFile {
  import opened Wrappers

  const BUFSIZE: nat := 4096

  function Min(a: nat, b: nat): nat { if a < b then a else b }

  /** What is read up to a delimiter. End is NULL: the end of the file, or a buffer that is too small. */
  datatype Line = Line(text: seq<char>) | End | IoError

  /** The next line of a stream of bytes, and what follows it. */
  function NextLine(s: seq<char>, c: char): (Line, seq<char>) {
    var k := IndexOf(s, c);
    if s == [] then (End, [])
    else if k < |s| then (Line(s[..k]), s[k + 1..])
    else (Line(s), [])
  }

  /** The line and its delimiter fit into a buffer. A last line without delimiter needs one byte to spare. */
  predicate Fits(s: seq<char>, c: char) { IndexOf(s, c) < BUFSIZE }

  class Reader {
    const mem: array<char>
    var data: nat
    var sz: nat
    var rest: seq<char>
    /** read gives all it is asked for, as long as the file has it. */
    const fullReads: bool
    /** read may fail. */
    const mayFail: bool

    ghost predicate Valid()
      reads this, mem
    {
      mem.Length == BUFSIZE && data + sz <= BUFSIZE
    }

    ghost function Buffered(): seq<char>
      requires Valid()
      reads this, mem
    {
      mem[data..data + sz]
    }

    /** The bytes the caller has not got yet. */
    ghost function Stream(): seq<char>
      requires Valid()
      reads this, mem
    {
      Buffered() + rest
    }

    constructor (file: seq<char>, fullReads: bool, mayFail: bool)
      ensures Valid() && fresh(mem) && Stream() == file && this.fullReads == fullReads && this.mayFail == mayFail
    {
      mem := new char[BUFSIZE];
      data, sz, rest := 0, 0, file;
      this.fullReads, this.mayFail := fullReads, mayFail;
    }

    /** How much read() gives for n bytes; -1 is an error. */
    method ReadCount(n: nat) returns (ret: int)
      ensures -1 <= ret <= Min(n, |rest|)
      ensures ret == 0 ==> Min(n, |rest|) == 0
      ensures fullReads && ret != -1 ==> ret == Min(n, |rest|)
      ensures !mayFail ==> ret != -1
    {
      ret := Min(n, |rest|);
      var fails := *;
      if mayFail && fails {
        ret := -1;
      } else if ret > 0 && !fullReads {
        ret :| 0 < ret <= Min(n, |rest|);
      }
    }

    /** memmove of what is left to the front of the buffer */
    method Compact()
      requires Valid()
      modifies this`data, mem
      ensures Valid() && data == 0 && Buffered() == old(Buffered())
    {
      forall i | 0 <= i < sz { mem[i] := mem[data + i]; }
      data := 0;
    }

    /** The bytes read arrive behind what is there. */
    method Append(more: seq<char>)
      requires Valid() && data == 0 && sz + |more| <= BUFSIZE
      modifies this`sz, mem
      ensures Valid() && sz == old(sz) + |more| && Buffered() == old(Buffered()) + more
    {
      forall i | 0 <= i < |more| { mem[sz + i] := more[i]; }
      sz := sz + |more|;
    }

    /** n bytes of the file arrive behind what is there. */
    method Absorb(n: nat)
      requires Valid() && data == 0 && n <= |rest| && sz + n <= BUFSIZE
      modifies this`sz, this`rest, mem
      ensures Valid() && Stream() == old(Stream()) && sz == old(sz) + n && rest == old(rest)[n..]
      ensures Buffered()[..old(sz)] == old(Buffered())
    {
      ghost var buffered := Buffered();
      var more := rest[..n];
      Append(more);
      Moved(buffered, more, rest);
      rest := rest[n..];
    }

    /** brefill: move what is left to the front and read more behind it. */
    method Refill() returns (r: int)
      requires Valid()
      modifies this`data, this`sz, this`rest, mem
      ensures Valid() && Stream() == old(Stream()) && data == 0 && old(sz) <= sz
      ensures Buffered()[..old(sz)] == old(Buffered())
      ensures r < 0 ==> sz == old(sz) && rest == old(rest) && mayFail
      ensures r == 0 ==> sz == old(sz) && (rest == [] || sz == BUFSIZE)
      ensures r > 0 ==> sz > old(sz) && |rest| < |old(rest)|
      ensures fullReads && r >= 0 ==> sz == Min(BUFSIZE, |old(Stream())|)
    {
      Compact();
      var ret := ReadCount(BUFSIZE - sz);
      if ret <= 0 {
        return ret;
      }
      Absorb(ret);
      return 1;
    }

    /** memcpy of chunk bytes to the caller */
    method Take(buf: array<char>, filled: nat, chunk: nat)
      requires Valid() && chunk <= sz && filled + chunk <= buf.Length && buf != mem
      modifies this`data, this`sz, buf
      ensures Valid() && sz == old(sz) - chunk && Buffered() == old(Buffered())[chunk..]
      ensures buf[..filled + chunk] == old(buf[..filled]) + old(Buffered())[..chunk]
    {
      forall i | 0 <= i < chunk { buf[filled + i] := mem[data + i]; }
      data, sz := data + chunk, sz - chunk;
    }

    /** The caller gets what the buffer has, up to size bytes in all. */
    method TakeChunk(buf: array<char>, size: nat, filled: nat, ghost stream: seq<char>) returns (to: nat)
      requires Valid() && buf.Length >= size && buf != mem && filled <= size && filled <= |stream|
      requires Stream() == stream[filled..] && buf[..filled] == stream[..filled]
      modifies this`data, this`sz, buf
      ensures Valid() && to <= size && to <= |stream| && Stream() == stream[to..] && buf[..to] == stream[..to]
      ensures to < size ==> sz == 0
    {
      var chunk := Min(size - filled, sz);
      Taken(Buffered(), rest, chunk, stream, filled);
      Take(buf, filled, chunk);
      to := filled + chunk;
    }

    /** bread: exactly the next size bytes, fewer only at the end of the file, however short the reads are. */
    method Bread(buf: array<char>, size: nat) returns (r: int)
      requires Valid() && buf.Length >= size && buf != mem
      modifies this`data, this`sz, this`rest, mem, buf
      ensures Valid()
      ensures r >= 0 ==> r == Min(size, |old(Stream())|) && buf[..r] == old(Stream())[..r] && Stream() == old(Stream())[r..]
      ensures r < 0 ==> mayFail && exists k :: 0 <= k <= |old(Stream())| && Stream() == old(Stream())[k..]
    {
      ghost var stream := Stream();
      var more, filled: nat := 1, 0;
      while more > 0
        invariant Valid() && filled <= size && filled <= |stream| && Stream() == stream[filled..]
        invariant buf[..filled] == stream[..filled]
        invariant more == 0 ==> filled == size || Stream() == []
        invariant more < 0 ==> mayFail
        decreases if more > 0 then 1 else 0, |rest|
      {
        filled := TakeChunk(buf, size, filled, stream);
        if filled < size {
          more := Refill();
        } else {
          more := 0;
        }
      }
      return if more < 0 then more else filled;
    }

    /** strnchr over the buffered bytes from ss on */
    method FindInBuffer(ss: nat, c: char) returns (n: nat)
      requires Valid() && ss <= IndexOf(Buffered(), c)
      ensures n == IndexOf(Buffered(), c)
    {
      n := ss;
      while n < sz && mem[data + n] != c
        invariant n <= IndexOf(Buffered(), c)
      {
        assert Buffered()[n] == mem[data + n];
        n := n + 1;
      }
      assert n < sz ==> Buffered()[n] == c;
    }

    /** Hand out the first n bytes and drop skip more. */
    method Cut(n: nat, skip: nat) returns (r: Line)
      requires Valid() && n + skip <= sz
      modifies this`data, this`sz
      ensures Valid() && r == Line(old(Buffered())[..n]) && Buffered() == old(Buffered())[n + skip..]
    {
      r := Line(mem[data..data + n]);
      data, sz := data + n + skip, sz - n - skip;
    }

    /** The code after the label again: done with a line, or with the tail of the file when refilled. */
    method Attempt(ss: nat, c: char, refilled: bool) returns (done: bool, r: Line)
      requires Valid() && ss <= IndexOf(Buffered(), c)
      modifies this`data, this`sz
      ensures Valid() && (refilled ==> done)
      ensures done ==> (r, Stream()) == Scan(old(Stream()), old(sz), c) && r != IoError
      ensures done && !refilled ==> IndexOf(old(Stream()), c) < old(sz)
      ensures !done ==> Buffered() == old(Buffered()) && sz == old(sz) == IndexOf(Buffered(), c)
    {
      ScanBuffer(Buffered(), rest, c);
      var n := FindInBuffer(ss, c);
      if n < sz {
        r := Cut(n, 1);
        return true, r;
      }
      if !refilled {
        return false, End;
      }
      if sz == 0 || sz == BUFSIZE {
        return true, End;
      }
      r := Cut(sz, 0);
      return true, r;
    }

    /** Refill and try once more, when the buffer holds no delimiter. */
    method Again(c: char) returns (r: Line, ghost m: nat)
      requires Valid() && sz == IndexOf(Buffered(), c)
      modifies this`data, this`sz, this`rest, mem
      ensures Valid()
      ensures r == IoError ==> Stream() == old(Stream()) && mayFail
      ensures r != IoError ==> Refilled(old(Stream()), old(sz), m, c, fullReads) && (r, Stream()) == Scan(old(Stream()), m, c)
    {
      m := sz;
      var ss := sz;
      ghost var before := Buffered();
      var more := Refill();
      if more < 0 {
        return IoError, m;
      }
      m := sz;
      assert Refilled(Stream(), ss, m, c, fullReads);
      NoneInPrefix(before, Buffered(), c);
      var done;
      done, r := Attempt(ss, c, true);
    }

    /** breadchr; the jump back to again is taken once. What it returns depends on the m bytes then in the buffer. */
    method Breadchr(c: char) returns (r: Line, ghost m: nat)
      requires Valid()
      modifies this`data, this`sz, this`rest, mem
      ensures Valid()
      ensures r == IoError ==> Stream() == old(Stream()) && mayFail
      ensures r != IoError ==> Refilled(old(Stream()), old(sz), m, c, fullReads) && (r, Stream()) == Scan(old(Stream()), m, c)
    {
      m := sz;
      var done;
      done, r := Attempt(0, c, false);
      if done {
        return;
      }
      r, m := Again(c);
    }

    /** A caller's loop over breadline: it gets the lines of the file, when reads are full and the lines fit. */
    method ReadLines(c: char) returns (lines: seq<seq<char>>, last: Line)
      requires Valid()
      modifies this`data, this`sz, this`rest, mem
      ensures Valid() && !last.Line? && (last == IoError ==> mayFail)
      ensures fullReads && AllFit(old(Stream()), c) && last == End ==> lines == Lines(old(Stream()), c) && Stream() == []
      ensures fullReads && AllFit(old(Stream()), c) ==> lines <= Lines(old(Stream()), c)
    {
      ghost var file := Stream();
      lines := [];
      while true
        invariant Valid()
        invariant fullReads && AllFit(file, c) ==> AllFit(Stream(), c) && Lines(file, c) == lines + Lines(Stream(), c)
        decreases |Stream()|
      {
        ghost var m;
        ghost var before := Stream();
        last, m := Breadchr(c);
        if last != IoError {
          ScanShrinks(before, m, c);
          if fullReads { FullReadsCutLines(before, m, c); }
        }
        if !last.Line? {
          return;
        }
        ghost var done := lines;
        lines := lines + [last.text];
        Regroup(done, last.text, Lines(Stream(), c));
      }
    }
  }

  lemma Moved(a: seq<char>, more: seq<char>, rest: seq<char>)
    requires more <= rest
    ensures (a + more) + rest[|more|..] == a + rest && (a + more)[..|a|] == a
  {
  }

  lemma Taken(buffered: seq<char>, rest: seq<char>, chunk: nat, stream: seq<char>, filled: nat)
    requires chunk <= |buffered| && filled <= |stream| && buffered + rest == stream[filled..]
    ensures filled + chunk <= |stream| && buffered[chunk..] + rest == stream[filled + chunk..]
    ensures stream[..filled] + buffered[..chunk] == stream[..filled + chunk]
  {
    assert forall i :: 0 <= i < chunk ==> buffered[i] == (buffered + rest)[i] == stream[filled + i];
    assert forall i :: 0 <= i < |buffered + rest| - chunk ==> (buffered[chunk..] + rest)[i] == (buffered + rest)[chunk + i];
  }

  lemma {:induction false} FirstIndex(s: seq<char>, c: char, n: nat)
    requires n <= |s| && c !in s[..n] && (n < |s| ==> s[n] == c)
    ensures IndexOf(s, c) == n
  {
    assert forall i :: 0 <= i < n ==> s[i] == s[..n][i];
  }

  /** m bytes are in the buffer when the line is cut: the d of before if they hold a delimiter, else after one refill. */
  ghost predicate Refilled(s: seq<char>, d: nat, m: nat, c: char, fullReads: bool) {
    && d <= m <= |s| && m <= BUFSIZE
    && (m == d ==> m == |s| || m == BUFSIZE || IndexOf(s, c) < m)
    && (fullReads ==> m == Min(BUFSIZE, |s|) || IndexOf(s, c) < m)
  }

  /** Cutting a line when the first m bytes of the stream are in the buffer. */
  ghost function Scan(s: seq<char>, m: nat, c: char): (Line, seq<char>)
    requires m <= |s|
  {
    var k := IndexOf(s[..m], c);
    if k < m then (Line(s[..k]), s[k + 1..])
    else if m == 0 || m == BUFSIZE then (End, s)
    else (Line(s[..m]), s[m..])
  }

  lemma NoneInPrefix(a: seq<char>, b: seq<char>, c: char)
    requires IndexOf(a, c) == |a| <= |b| && b[..|a|] == a
    ensures IndexOf(b, c) >= |a|
  {
    assert forall i :: 0 <= i < |a| ==> b[i] == a[i];
  }

  /** Scanning the stream with b in the buffer is scanning b. */
  lemma ScanBuffer(b: seq<char>, rest: seq<char>, c: char)
    ensures var k, s := IndexOf(b, c), b + rest;
            && Scan(s, |b|, c) == (if k < |b| then (Line(b[..k]), b[k + 1..] + rest)
                                   else if |b| == 0 || |b| == BUFSIZE then (End, s)
                                   else (Line(b[..|b|]), b[|b|..] + rest))
            && (k < |b| ==> IndexOf(s, c) == k)
  {
    var k, s := IndexOf(b, c), b + rest;
    assert s[..|b|] == b == b[..|b|] && s[|b|..] == rest == b[|b|..] + rest;
    if k < |b| {
      assert s[..k] == b[..k] && s[k + 1..] == b[k + 1..] + rest;
      FirstIndex(s, c, k);
    }
  }

  lemma Regroup<T>(a: seq<T>, x: T, b: seq<T>)
    ensures a + ([x] + b) == (a + [x]) + b
  {
  }

  lemma ScanShrinks(s: seq<char>, m: nat, c: char)
    requires m <= |s|
    ensures Scan(s, m, c).0.Line? ==> |Scan(s, m, c).1| < |s|
  {
  }

  /** However short the reads: the next line of the stream is cut exactly when its end, or the end of the file, is in the buffer. */
  lemma LineExactlyWhen(s: seq<char>, m: nat, c: char)
    requires m <= |s| && m <= BUFSIZE
    ensures Scan(s, m, c) == NextLine(s, c) <==> IndexOf(s, c) < m || m == |s| < BUFSIZE
  {
    var k := IndexOf(s[..m], c);
    assert forall i :: 0 <= i < m ==> s[..m][i] == s[i];
    if k < m {
      FirstIndex(s, c, k);
    } else if m == |s| {
      assert s[..m] == s;
    } else {
      assert |s[m..]| != |NextLine(s, c).1|;
    }
  }

  /** A read that stops after the first byte of a line: what was read is returned as a line. */
  lemma ShortReadCutsLine()
    ensures var s := "ab\n";
            && Refilled(s, 0, 1, '\n', false)
            && Scan(s, 1, '\n') == (Line("a"), "b\n") && NextLine(s, '\n') == (Line("ab"), [])
  {
    var s := "ab\n";
    FirstIndex(s, '\n', 2);
    assert s[..1] == "a" && s[1..] == "b\n" && s[..2] == "ab" && s[3..] == [];
    FirstIndex("a", '\n', 1);
  }

  /** With full reads the line is cut right exactly when it fits. */
  lemma FullReadsCutLines(s: seq<char>, m: nat, c: char)
    requires exists d :: 0 <= d && Refilled(s, d, m, c, true)
    ensures m <= |s| && (Scan(s, m, c) == NextLine(s, c) <==> Fits(s, c))
  {
    LineExactlyWhen(s, m, c);
  }

  /** The lines of a file. */
  ghost function Lines(s: seq<char>, c: char): seq<seq<char>>
    decreases |s|
  {
    if s == [] then [] else [NextLine(s, c).0.text] + Lines(NextLine(s, c).1, c)
  }

  ghost predicate AllFit(s: seq<char>, c: char)
    decreases |s|
  {
    s != [] ==> Fits(s, c) && AllFit(NextLine(s, c).1, c)
  }

  ghost function Unlines(lines: seq<seq<char>>, c: char): seq<char> {
    if lines == [] then [] else lines[0] + [c] + Unlines(lines[1..], c)
  }

  /** No line has a delimiter inside. */
  lemma {:induction false} NoDelimiterInside(s: seq<char>, c: char)
    ensures forall l :: l in Lines(s, c) ==> c !in l
    decreases |s|
  {
    if s != [] { NoDelimiterInside(NextLine(s, c).1, c); }
  }

  /** s with the delimiter its last line may lack. */
  ghost function Closed(s: seq<char>, c: char): seq<char> {
    if s == [] || s[|s| - 1] == c then s else s + [c]
  }

  lemma ClosedAfterLine(line: seq<char>, rest: seq<char>, c: char)
    ensures Closed(line + [c] + rest, c) == line + [c] + Closed(rest, c)
  {
    var s := line + [c] + rest;
    assert rest != [] ==> s[|s| - 1] == rest[|rest| - 1];
    assert s + [c] == line + [c] + (rest + [c]);
  }

  /** The lines put together again are the file. */
  lemma {:induction false} UnlinesLines(s: seq<char>, c: char)
    ensures Unlines(Lines(s, c), c) == Closed(s, c)
    decreases |s|
  {
    if s != [] {
      var k, rest := IndexOf(s, c), NextLine(s, c).1;
      UnlinesLines(rest, c);
      assert Lines(s, c)[1..] == Lines(rest, c);
      if k < |s| {
        assert s == s[..k] + [c] + rest;
        ClosedAfterLine(s[..k], rest, c);
      }
    }
  }

  class Writer {
    const mem: array<char>
    var sz: nat
    var file: seq<char>
    /** write takes all it is given. */
    const fullWrites: bool

    ghost predicate Valid()
      reads this, mem
    {
      mem.Length == BUFSIZE && sz <= BUFSIZE
    }

    /** Everything accepted so far: the file and behind it the buffer. */
    ghost function Content(): seq<char>
      requires Valid()
      reads this, mem
    {
      file + mem[..sz]
    }

    constructor (fullWrites: bool)
      ensures Valid() && fresh(mem) && Content() == [] && this.fullWrites == fullWrites
    {
      mem := new char[BUFSIZE];
      sz, file := 0, [];
      this.fullWrites := fullWrites;
    }

    /** write(): some of the bytes arrive at the end of the file; -1 is an error. */
    method Write(buf: seq<char>) returns (ret: int)
      modifies this`file
      ensures -1 <= ret <= |buf| && (fullWrites ==> ret == |buf|)
      ensures file == old(file) + if ret < 0 then [] else buf[..ret]
    {
      ret := |buf|;
      if !fullWrites {
        ret :| -1 <= ret <= |buf|;
      }
      if ret > 0 {
        file := file + buf[..ret];
      }
    }

    /** bflush: nothing is lost or repeated unless it fails, and then some of the buffer may be in the file already. */
    method Flush() returns (r: int)
      requires Valid()
      modifies this`file, this`sz
      ensures Valid() && (r == 0 || r == -1) && (fullWrites ==> r == 0)
      ensures r == 0 ==> sz == 0 && file == old(Content())
      ensures r < 0 ==> sz == old(sz) && exists n :: 0 <= n < sz && file == old(file) + mem[..sz][..n]
    {
      if sz == 0 {
        return 0;
      }
      var ret := Write(mem[..sz]);
      if ret != sz {
        ghost var n := if ret < 0 then 0 else ret;
        assert file == old(file) + mem[..sz][..n];
        return -1;
      }
      sz := 0;
      return 0;
    }

    /** memcpy behind what is buffered */
    method Keep(buf: seq<char>)
      requires Valid() && sz + |buf| <= BUFSIZE
      modifies this`sz, mem
      ensures Valid() && Content() == old(Content()) + buf
    {
      forall i | 0 <= i < |buf| { mem[sz + i] := buf[i]; }
      assert mem[..sz + |buf|] == old(mem[..sz]) + buf;
      sz := sz + |buf|;
    }

    /** bwrite: the bytes reported as written come behind everything before, in the file or in the buffer. */
    method Bwrite(buf: seq<char>) returns (r: int)
      requires Valid()
      modifies this`file, this`sz, mem
      ensures Valid() && r <= |buf| && (fullWrites ==> r == |buf|)
      ensures r >= 0 ==> Content() == old(Content()) + buf[..r]
      ensures 0 <= r < |buf| ==> |buf| > BUFSIZE
      ensures r < 0 ==> old(file) <= file <= old(Content())
    {
      if sz + |buf| > BUFSIZE {
        var ret := Flush();
        if ret < 0 {
          PrefixOfContent(old(file), mem[..sz], file);
          return ret;
        }
      }
      if |buf| > BUFSIZE {
        r := Write(buf);
        return;
      }
      Keep(buf);
      return |buf|;
    }

    /** bwritev: the vectors as one piece. */
    method Bwritev(iov: seq<seq<char>>) returns (r: int)
      requires Valid()
      modifies this`file, this`sz, mem
      ensures Valid() && r <= |Flatten(iov)| && (fullWrites ==> r == |Flatten(iov)|)
      ensures r >= 0 ==> Content() == old(Content()) + Flatten(iov)[..r]
      ensures 0 <= r < |Flatten(iov)| ==> exists i :: 0 <= i < |iov| && |iov[i]| > BUFSIZE
    {
      ghost var before := Content();
      var written: nat, i := 0, 0;
      assert Flatten(iov)[..0] == [] && iov[0..] == iov;
      while i < |iov|
        invariant i <= |iov| && Valid() && written <= |Flatten(iov)| && Content() == before + Flatten(iov)[..written]
        invariant Flatten(iov)[written..] == Flatten(iov[i..])
      {
        var ret := Bwrite(iov[i]);
        if ret < 0 {
          return ret;
        }
        Appended(before, Flatten(iov), written, iov[i], iov[i + 1..], ret);
        assert iov[i..][1..] == iov[i + 1..];
        written := written + ret;
        if ret < |iov[i]| {
          return written;
        }
        i := i + 1;
      }
      return written;
    }

    /** bclose of a writable file. Unless the flush fails, which is remembered, the file is exactly what was accepted. */
    method Close(flushFailed: bool) returns (flushFailed': bool)
      requires Valid()
      modifies this`file, this`sz
      ensures flushFailed' <==> flushFailed || sz != 0
      ensures sz == 0 ==> file == old(Content())
      ensures fullWrites ==> sz == 0
    {
      var r := Flush();
      flushFailed' := flushFailed || r < 0;
    }
  }

  lemma PrefixOfContent(file: seq<char>, buffered: seq<char>, file': seq<char>)
    requires exists n :: 0 <= n < |buffered| && file' == file + buffered[..n]
    ensures file <= file' <= file + buffered
  {
    var n :| 0 <= n < |buffered| && file' == file + buffered[..n];
    assert (file + buffered)[..|file'|] == file';
  }

  function Flatten(iov: seq<seq<char>>): seq<char> {
    if iov == [] then [] else iov[0] + Flatten(iov[1..])
  }

  lemma Appended(before: seq<char>, all: seq<char>, written: nat, next: seq<char>, others: seq<seq<char>>, ret: nat)
    requires written <= |all| && all[written..] == next + Flatten(others) && ret <= |next|
    ensures written + ret <= |all| && before + all[..written] + next[..ret] == before + all[..written + ret]
    ensures ret == |next| ==> all[written + ret..] == Flatten(others)
  {
    assert forall i :: 0 <= i < ret ==> all[written + i] == all[written..][i] == next[i];
    assert forall i :: 0 <= i < |Flatten(others)| ==> all[written..][|next| + i] == Flatten(others)[i];
  }
}
