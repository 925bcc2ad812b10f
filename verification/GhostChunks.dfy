/**
 Dumping a sparse file as chunks and restoring it (criu/files-reg.c).

 A file is its bytes and, per byte, whether it lies in a data extent; holes read as zero. Any transfer
 may move less than asked, but something, or fail; reliable says that none fails.
 */
module GhostChunks {

  newtype byte = x: int | 0 <= x < 256

  datatype File = File(bytes: seq<byte>, data: seq<bool>)

  ghost predicate Sparse(f: File) {
    |f.data| == |f.bytes| && forall i :: 0 <= i < |f.bytes| && !f.data[i] ==> f.bytes[i] == 0
  }

  /** A ghost chunk entry and the raw bytes behind it in the image. */
  datatype Chunk = Chunk(off: nat, bytes: seq<byte>)

  function End(c: Chunk): nat { c.off + |c.bytes| }

  /** The chunks are pieces of the contents, in ascending order and apart. */
  ghost predicate Pieces(chunks: seq<Chunk>, bytes: seq<byte>) {
    && (forall k {:trigger chunks[k]} :: 0 <= k < |chunks| ==>
          End(chunks[k]) <= |bytes| && chunks[k].bytes == bytes[chunks[k].off..End(chunks[k])])
    && (forall k, l {:trigger chunks[k], chunks[l]} :: 0 <= k < l < |chunks| ==> End(chunks[k]) <= chunks[l].off)
  }

  ghost predicate Covered(chunks: seq<Chunk>, i: nat) {
    exists k :: 0 <= k < |chunks| && chunks[k].off <= i < End(chunks[k])
  }

  /** What no chunk covers reads as zero. */
  ghost predicate RestIsZero(chunks: seq<Chunk>, bytes: seq<byte>, n: nat) {
    forall i {:trigger Covered(chunks, i)} :: 0 <= i < n && i < |bytes| && !Covered(chunks, i) ==> bytes[i] == 0
  }

  ghost predicate Dumps(chunks: seq<Chunk>, bytes: seq<byte>) {
    Pieces(chunks, bytes) && RestIsZero(chunks, bytes, |bytes|)
  }

  datatype Seek = At(pos: nat) | NoData | Failed

  /** lseek(SEEK_DATA): the next byte of data; fails on a file system that cannot tell. */
  method SeekData(f: File, off: nat, supported: bool, reliable: bool) returns (r: Seek)
    requires |f.data| == |f.bytes|
    ensures r.At? ==> off <= r.pos < |f.data| && f.data[r.pos] && forall i :: off <= i < r.pos ==> !f.data[i]
    ensures r.NoData? ==> forall i :: off <= i < |f.data| ==> !f.data[i]
    ensures !supported ==> r.Failed?
    ensures supported && reliable ==> !r.Failed?
  {
    var fails := *;
    if !supported || (fails && !reliable) {
      return Failed;
    }
    var i := off;
    while i < |f.data|
      invariant off <= i && (forall k :: off <= k < i && k < |f.data| ==> !f.data[k])
    {
      if f.data[i] {
        return At(i);
      }
      i := i + 1;
    }
    return NoData;
  }

  /** lseek(SEEK_HOLE): the end of the data extent. */
  method SeekHole(f: File, off: nat, reliable: bool) returns (r: Seek)
    requires |f.data| == |f.bytes| && off < |f.data| && f.data[off]
    ensures r.At? ==> off < r.pos <= |f.data| && (forall i :: off <= i < r.pos ==> f.data[i]) && (r.pos < |f.data| ==> !f.data[r.pos])
    ensures !r.NoData? && (reliable ==> r.At?)
  {
    var i := off;
    while i < |f.data| && f.data[i]
      invariant off <= i <= |f.data| && forall k :: off <= k < i ==> f.data[k]
    {
      i := i + 1;
    }
    var fails := *;
    if fails && !reliable {
      return Failed;
    }
    return At(i);
  }

  /** sendfile or splice of len > 0 bytes: how many were moved, or -1. */
  method Transfer(len: nat, reliable: bool) returns (ret: int)
    requires len > 0
    ensures (ret == -1 && !reliable) || 0 < ret <= len
  {
    var fails := *;
    if fails && !reliable {
      return -1;
    }
    ret :| 0 < ret <= len;
  }

  /** copy_chunk_from_file */
  method CopyChunkFromFile(bytes: seq<byte>, off0: nat, len0: nat, reliable: bool) returns (ok: bool, raw: seq<byte>)
    requires off0 + len0 <= |bytes|
    ensures ok ==> raw == bytes[off0..off0 + len0]
    ensures reliable ==> ok
  {
    raw := [];
    var off, len := off0, len0;
    while len > 0
      invariant off0 <= off && 0 <= len && off + len == off0 + len0 && raw == bytes[off0..off]
    {
      var ret := Transfer(len, reliable);
      if ret <= 0 {
        return false, raw;
      }
      raw := raw + bytes[off..off + ret];
      off, len := off + ret, len - ret;
    }
    ok := true;
  }

  lemma CoveredAppend(chunks: seq<Chunk>, c: Chunk, i: nat)
    ensures Covered(chunks + [c], i) <==> Covered(chunks, i) || c.off <= i < End(c)
  {
    assert (chunks + [c])[|chunks|] == c;
    if Covered(chunks, i) {
      var k :| 0 <= k < |chunks| && chunks[k].off <= i < End(chunks[k]);
      assert (chunks + [c])[k] == chunks[k];
    }
  }

  lemma AddChunk(chunks: seq<Chunk>, bytes: seq<byte>, hole: nat, data: nat, end: nat)
    requires Pieces(chunks, bytes) && RestIsZero(chunks, bytes, hole) && (forall k :: 0 <= k < |chunks| ==> End(chunks[k]) <= hole)
    requires hole <= data <= end <= |bytes| && (forall i :: hole <= i < data ==> bytes[i] == 0)
    ensures var more := chunks + [Chunk(data, bytes[data..end])];
            Pieces(more, bytes) && RestIsZero(more, bytes, end) && forall k :: 0 <= k < |more| ==> End(more[k]) <= end
  {
    var c := Chunk(data, bytes[data..end]);
    forall i | 0 <= i < end && !Covered(chunks + [c], i) ensures bytes[i] == 0 {
      CoveredAppend(chunks, c, i);
    }
  }

  /** The chunks cover exactly the data before n. */
  ghost predicate OnlyData(chunks: seq<Chunk>, f: File, n: nat)
    requires n <= |f.data|
  {
    forall i {:trigger Covered(chunks, i)} :: 0 <= i < n ==> (Covered(chunks, i) <==> f.data[i])
  }

  lemma CoveredBelow(chunks: seq<Chunk>, n: nat)
    requires forall k :: 0 <= k < |chunks| ==> End(chunks[k]) <= n
    ensures forall i :: n <= i ==> !Covered(chunks, i)
  {
  }

  lemma AddData(chunks: seq<Chunk>, f: File, hole: nat, data: nat, end: nat)
    requires |f.data| == |f.bytes| && hole <= data <= end <= |f.data| && OnlyData(chunks, f, hole)
    requires forall k :: 0 <= k < |chunks| ==> End(chunks[k]) <= hole
    requires (forall i :: hole <= i < data ==> !f.data[i]) && (forall i :: data <= i < end ==> f.data[i])
    ensures OnlyData(chunks + [Chunk(data, f.bytes[data..end])], f, end)
  {
    var c := Chunk(data, f.bytes[data..end]);
    CoveredBelow(chunks, hole);
    forall i | 0 <= i < end ensures Covered(chunks + [c], i) <==> f.data[i] {
      CoveredAppend(chunks, c, i);
    }
  }

  /** copy_file_to_chunks: whether or not the file system can tell data from holes, the chunks dump the file;
   if it can, they hold exactly the data and no hole. */
  method CopyFileToChunks(f: File, supported: bool, reliable: bool) returns (ok: bool, chunks: seq<Chunk>)
    requires Sparse(f)
    ensures ok ==> Dumps(chunks, f.bytes)
    ensures supported && reliable ==> forall i {:trigger Covered(chunks, i)} :: 0 <= i < |f.bytes| ==> (Covered(chunks, i) <==> f.data[i])
    ensures reliable ==> ok
  {
    chunks := [];
    var size, hole := |f.bytes|, 0;
    while hole < size
      invariant hole <= size && Pieces(chunks, f.bytes) && RestIsZero(chunks, f.bytes, hole)
      invariant forall k :: 0 <= k < |chunks| ==> End(chunks[k]) <= hole
      invariant supported && reliable ==> OnlyData(chunks, f, hole)
      invariant !supported ==> hole == 0 || hole == size
      decreases size - hole
    {
      var data;
      ghost var before := hole;
      var sought := SeekData(f, hole, supported, reliable);
      match sought {
        case NoData =>
          CoveredBelow(chunks, hole);
          return true, chunks;
        case Failed =>
          if hole != 0 {
            return false, chunks;
          }
          data, hole := 0, size;
        case At(pos) =>
          data := pos;
          var end := SeekHole(f, data, reliable);
          if end.Failed? {
            return false, chunks;
          }
          hole := end.pos;
      }
      var raw;
      ok, raw := CopyChunkFromFile(f.bytes, data, hole - data, reliable);
      if !ok {
        return;
      }
      AddChunk(chunks, f.bytes, before, data, hole);
      if supported && reliable { AddData(chunks, f, before, data, hole); }
      chunks := chunks + [Chunk(data, raw)];
    }
    ok := true;
  }

  /** The file with the bytes written at off. */
  function Patched(file: seq<byte>, off: nat, raw: seq<byte>): (r: seq<byte>)
    requires off + |raw| <= |file|
    ensures |r| == |file|
  {
    file[..off] + raw + file[off + |raw|..]
  }

  lemma PatchedOn(file: seq<byte>, off: nat, raw: seq<byte>, n: nat, m: nat)
    requires off + |raw| <= |file| && n + m <= |raw|
    ensures Patched(Patched(file, off, raw[..n]), off + n, raw[n..n + m]) == Patched(file, off, raw[..n + m])
  {
    var a, b := Patched(Patched(file, off, raw[..n]), off + n, raw[n..n + m]), Patched(file, off, raw[..n + m]);
    forall i | 0 <= i < |file| ensures a[i] == b[i] { }
  }

  /** What sendfile puts into the file at the position just sought. */
  method WriteAt(file: array<byte>, off: nat, piece: seq<byte>)
    requires off + |piece| <= file.Length
    modifies file
    ensures file[..] == Patched(old(file[..]), off, piece)
  {
    forall i | 0 <= i < |piece| { file[off + i] := piece[i]; }
  }

  /** copy_chunk_to_file */
  method CopyChunkToFile(file: array<byte>, off0: nat, raw: seq<byte>, reliable: bool) returns (ok: bool)
    requires off0 + |raw| <= file.Length
    modifies file
    ensures reliable ==> ok
    ensures ok ==> file[..] == Patched(old(file[..]), off0, raw)
  {
    var off, len, done := off0, |raw|, 0;
    ghost var was := file[..];
    assert file[..] == Patched(was, off0, raw[..0]);
    while len > 0
      invariant 0 <= done <= |raw| && off == off0 + done && done + len == |raw|
      invariant file[..] == Patched(was, off0, raw[..done])
    {
      var ret := Transfer(len, reliable);
      if ret < 0 {
        return false;
      }
      PatchedOn(was, off0, raw, done, ret);
      WriteAt(file, off, raw[done..done + ret]);
      off, len, done := off + ret, len - ret, done + ret;
    }
    assert raw[..done] == raw;
    ok := true;
  }

  /** The contents up to what the first n chunks say. */
  ghost predicate Restored(file: seq<byte>, chunks: seq<Chunk>, bytes: seq<byte>, n: nat)
    requires n <= |chunks|
  {
    |file| == |bytes| && forall i {:trigger file[i]} :: 0 <= i < |file| ==> file[i] == if Covered(chunks[..n], i) then bytes[i] else 0
  }

  lemma RestoreOne(file: seq<byte>, chunks: seq<Chunk>, bytes: seq<byte>, n: nat)
    requires n < |chunks| && Pieces(chunks, bytes) && Restored(file, chunks, bytes, n)
    ensures Restored(Patched(file, chunks[n].off, chunks[n].bytes), chunks, bytes, n + 1)
  {
    var file' := Patched(file, chunks[n].off, chunks[n].bytes);
    forall i | 0 <= i < |file| ensures file'[i] == if Covered(chunks[..n + 1], i) then bytes[i] else 0 {
      assert chunks[..n + 1] == chunks[..n] + [chunks[n]];
      CoveredAppend(chunks[..n], chunks[n], i);
    }
  }

  /** copy_file_from_chunks: restoring what dumps the contents gives the contents back. */
  method CopyFileFromChunks(chunks: seq<Chunk>, size: nat, ghost bytes: seq<byte>, reliable: bool) returns (ok: bool, file: array<byte>)
    requires size == |bytes| && Dumps(chunks, bytes)
    ensures ok ==> file[..] == bytes
    ensures reliable ==> ok
  {
    file := new byte[size](_ => 0);
    var n := 0;
    assert chunks[..0] == [];
    while n < |chunks|
      invariant n <= |chunks| && file.Length == size && fresh(file) && Restored(file[..], chunks, bytes, n)
    {
      var fails := *;
      if fails && !reliable {
        return false, file;
      }
      RestoreOne(file[..], chunks, bytes, n);
      ok := CopyChunkToFile(file, chunks[n].off, chunks[n].bytes, reliable);
      if !ok {
        return;
      }
      n := n + 1;
    }
    assert chunks[..n] == chunks;
    assert file[..] == bytes;
    ok := true;
  }

  /** Dump and restore: identical contents. */
  method DumpAndRestore(f: File, supported: bool, reliable: bool) returns (ok: bool, file: array<byte>)
    requires Sparse(f)
    ensures ok ==> file[..] == f.bytes
    ensures reliable ==> ok
  {
    var chunks;
    ok, chunks := CopyFileToChunks(f, supported, reliable);
    if !ok {
      return false, new byte[0];
    }
    ok, file := CopyFileFromChunks(chunks, |f.bytes|, f.bytes, reliable);
  }
}
