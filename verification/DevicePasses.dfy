/** The block passes of bonnie++'s `TestFileOps` and the random access of `doseek`, over the linear device. */
module DevicePasses {
  import opened Arithmetic
  import opened Geometries
  import opened FileOps

  /** `buf[k]++` on a char. */
  function Plus(b: Byte, n: nat): Byte {
    (b + n) % 256
  }

  function Minus(b: Byte, n: nat): Byte {
    (b - n) % 256
  }

  function Bumped(chunk: Chunk, k: nat): Chunk
    requires k < |chunk|
  {
    chunk[k := Plus(chunk[k], 1)]
  }

  function Lowered(chunk: Chunk, k: nat): Chunk
    requires k < |chunk|
  {
    chunk[k := Minus(chunk[k], 1)]
  }

  /** How many of the first w passes of the write loop increment byte k. */
  function Increments(w: nat, k: nat, size: nat): nat
    requires size >= 1
  {
    if w == 0 then 0 else Increments(w - 1, k, size) + if (w - 1) % size == k then 1 else 0
  }

  /** What the block-write pass puts into chunk w. */
  function WrittenChunk(w: nat, size: nat): Chunk
    requires size >= 1
  {
    seq(size, k requires 0 <= k => Increments(w + 1, k, size) % 256)
  }

  /** A device whose chunks all have the right size. */
  predicate Chunks(device: seq<Chunk>, size: nat) {
    forall w :: 0 <= w < |device| ==> |device[w]| == size
  }

  /** The first `done` chunks of a device with byte w % size of chunk w incremented. */
  predicate RewrittenTo(before: seq<Chunk>, after: seq<Chunk>, done: nat, size: nat)
    requires size >= 1
  {
    && |after| == |before| && done <= |before| && Chunks(before, size)
    && (forall w :: 0 <= w < done ==> after[w] == Bumped(before[w], w % size))
    && (forall w :: done <= w < |before| ==> after[w] == before[w])
  }

  lemma NextIndex(i: nat, size: nat)
    requires size >= 1
    ensures (i % size + 1) % size == (i + 1) % size
  {
    NextDivMod(i, size);
    SmallMod(i % size + 1, size);
  }

  /** "Writing intelligently": every chunk is written once, in order, across all file boundaries. */
  method BlockWrite(f: CFileOp, buf: array<Byte>) returns (ok: bool)
    requires f.Valid() && buf.Length == f.chunkSize
    modifies f`curPos, f`fileInd, f.files, f.offset, buf
    ensures ok && f.Valid() && Full(f.g, f.files[..])
    ensures AllWritten(f.Device(), f.g.totalChunks, f.chunkSize)
  {
    var size, total := f.chunkSize, f.g.totalChunks;
    f.Reopen(true);
    for k := 0 to buf.Length
      modifies buf
      invariant forall j :: 0 <= j < k ==> buf[j] == 0
    {
      buf[k] := 0;
    }
    var bufindex := 0;
    NothingWritten(f.g, f.files[..]);
    assert f.Device() == [];
    for i := 0 to total
      invariant WrittenUpTo(f, i)
      invariant AllWritten(f.Device(), i, size)
      invariant bufindex == i % size
      invariant forall k :: 0 <= k < size ==> buf[k] == Increments(i, k, size) % 256
    {
      Turn(buf, bufindex, i);
      NextIndex(i, size);
      bufindex := (bufindex + 1) % size;
      ok := AppendOne(f, buf[..], i);
      if !ok {
        return false;
      }
    }
    ok := true;
  }

  /** The first n chunks of the device are those of the write pass. */
  predicate AllWritten(device: seq<Chunk>, n: nat, size: nat)
    requires size >= 1
  {
    |device| == n && forall w :: 0 <= w < n ==> device[w] == WrittenChunk(w, size)
  }

  /** `buf[bufindex]++` in turn i of the write loop. */
  method Turn(buf: array<Byte>, bufindex: nat, i: nat)
    requires buf.Length >= 1 && bufindex == i % buf.Length
    requires forall k :: 0 <= k < buf.Length ==> buf[k] == Increments(i, k, buf.Length) % 256
    modifies buf
    ensures buf[..] == WrittenChunk(i, buf.Length)
    ensures forall k :: 0 <= k < buf.Length ==> buf[k] == Increments(i + 1, k, buf.Length) % 256
  {
    buf[bufindex] := Plus(buf[bufindex], 1);
  }

  /** The state of the write loop: `done` chunks are on the device and the next one goes to the current position. */
  ghost predicate WrittenUpTo(f: CFileOp, done: nat)
    reads f, f.files, f.offset
  {
    && f.Valid() && f.InSync() && f.Pos() == done
    && (f.AtChunk() <==> done < f.g.totalChunks)
    && (done < f.g.totalChunks ==> FilledTo(f.g, f.files[..], f.fileInd, f.curPos))
    && (done == f.g.totalChunks ==> Full(f.g, f.files[..]))
  }

  method AppendOne(f: CFileOp, data: Chunk, done: nat) returns (ok: bool)
    requires WrittenUpTo(f, done) && done < f.g.totalChunks
    modifies f`curPos, f`fileInd, f.files, f.offset
    ensures ok && WrittenUpTo(f, done + 1)
    ensures f.Device() == old(f.Device()) + [data]
  {
    ghost var files, file, chunk := f.files[..], f.fileInd, f.curPos;
    DeviceAppend(f.g, files, file, chunk, data);
    var r := f.WriteBlock(data);
    FilledOn(f.g, f.files[..], file, chunk + 1, f.fileInd, f.curPos);
    ok := r != -1;
  }

  lemma NothingWritten(g: Geometry, files: seq<seq<Chunk>>)
    requires Good(g) && |files| == g.numFiles && forall i :: 0 <= i < |files| ==> files[i] == []
    ensures FilledTo(g, files, 0, 0) && Flatten(files) == []
    ensures g.totalChunks > 0
  {
    FlattenEmpty(files);
    if g.numFiles > 1 {
      FileStartMonotone(g, 0, g.numFiles - 1);
    }
  }

  /** The written part ends at the same place however the end of a file is named. */
  lemma FilledOn(g: Geometry, files: seq<seq<Chunk>>, file: nat, chunk: nat, file': int, chunk': int)
    requires Good(g) && FilledTo(g, files, file, chunk) && chunk >= 1
    requires Position(g, file', chunk') == Position(g, file, chunk)
    requires Inside(g, Position(g, file, chunk)) ==>
               0 <= file' < g.numFiles && 0 <= chunk' < FileChunks(g, file')
    ensures Inside(g, Position(g, file, chunk)) ==> FilledTo(g, files, file', chunk')
    ensures Position(g, file, chunk) == g.totalChunks ==> Full(g, files)
  {
    FileStartStep(g, file);
    if chunk < FileChunks(g, file) {
      PositionCases(g, file, chunk);
      if Inside(g, Position(g, file, chunk)) {
        PositionUnique(g, file, chunk, file', chunk');
      }
    } else if file < g.numFiles - 1 {
      PositionCases(g, file + 1, 0);
      if Inside(g, Position(g, file, chunk)) {
        PositionUnique(g, file + 1, 0, file', chunk');
      }
    }
  }

  /** "Rewriting": read a chunk, increment one byte, step back and write it - also at the last chunk of a file. */
  method Rewrite(f: CFileOp, buf: array<Byte>) returns (ok: bool)
    requires f.Valid() && buf.Length == f.chunkSize && Full(f.g, f.files[..]) && Chunks(f.Device(), f.chunkSize)
    modifies f`curPos, f`fileInd, f.files, f.offset, buf
    ensures ok && f.Valid() && Full(f.g, f.files[..])
    ensures RewrittenTo(old(f.Device()), f.Device(), f.g.totalChunks, f.chunkSize)
  {
    var size, total := f.chunkSize, f.g.totalChunks;
    ghost var before := f.Device();
    f.Reopen(false);
    assert f.Device() == before;
    DeviceLength(f.g, f.files[..]);
    var r := f.Seek(0, SeekSet);
    if r == -1 {
      return false;
    }
    var bufindex := 0;
    for words := 0 to total
      invariant StandsAt(f, words)
      invariant RewrittenTo(before, f.Device(), words, size) && Chunks(f.Device(), size)
      invariant words % size == bufindex % size
    {
      bufindex := bufindex % size;
      ok := RewriteOne(f, buf, bufindex, words);
      if !ok {
        return false;
      }
      NextIndex(words, size);
      bufindex := bufindex + 1;
    }
    ok := true;
  }

  /** The state of the rewrite and read loops: everything is on the device and `done` chunks are behind us. */
  ghost predicate StandsAt(f: CFileOp, done: nat)
    reads f, f.files, f.offset
  {
    && f.Valid() && f.InSync() && f.Pos() == done && Full(f.g, f.files[..])
    && (f.AtChunk() <==> done < f.g.totalChunks)
  }

  method ReadNext(f: CFileOp, done: nat) returns (data: Chunk, r: int)
    requires StandsAt(f, done) && done < f.g.totalChunks
    modifies f`curPos, f`fileInd, f.offset
    ensures r == f.chunkSize && StandsAt(f, done + 1)
    ensures done < |f.Device()| && data == f.Device()[done]
  {
    DeviceRead(f.g, f.files[..], f.fileInd, f.curPos);
    data, r := f.ReadBlock();
  }

  method ReplaceNext(f: CFileOp, done: nat, data: Chunk) returns (r: int)
    requires StandsAt(f, done) && done < f.g.totalChunks
    modifies f`curPos, f`fileInd, f.files, f.offset
    ensures r == f.chunkSize && StandsAt(f, done + 1)
    ensures done < |old(f.Device())| && f.Device() == old(f.Device())[done := data]
  {
    DeviceWrite(f.g, f.files[..], f.fileInd, f.curPos, data);
    r := f.WriteBlock(data);
  }

  /** What was read is in the buffer, and `buf[bufindex]++`. */
  method Dirty(buf: array<Byte>, index: nat, data: Chunk)
    requires index < buf.Length == |data|
    modifies buf
    ensures buf[..] == Bumped(data, index)
  {
    for k := 0 to buf.Length
      invariant buf[..k] == data[..k]
    {
      buf[k] := data[k];
    }
    buf[index] := Plus(buf[index], 1);
  }

  /** One turn of the rewrite loop: read, step back one chunk, write. */
  method RewriteOne(f: CFileOp, buf: array<Byte>, index: nat, words: nat) returns (ok: bool)
    requires StandsAt(f, words) && words < f.g.totalChunks && index < f.chunkSize == buf.Length
    requires Chunks(f.Device(), f.chunkSize)
    modifies f`curPos, f`fileInd, f.files, f.offset, buf
    ensures ok && StandsAt(f, words + 1)
    ensures words < |old(f.Device())| && |old(f.Device())[words]| == f.chunkSize
    ensures f.Device() == old(f.Device())[words := Bumped(old(f.Device())[words], index)]
  {
    var data, r := ReadNext(f, words);
    if r == -1 {
      return false;
    }
    Dirty(buf, index, data);
    r := f.Seek(-1, SeekCur);
    if r == -1 {
      return false;
    }
    r := ReplaceNext(f, words, buf[..]);
    ok := r != -1;
  }

  /** "Reading intelligently": every chunk is read exactly once, in order. */
  method BlockRead(f: CFileOp) returns (ok: bool, seen: seq<Chunk>)
    requires f.Valid() && Full(f.g, f.files[..])
    modifies f`curPos, f`fileInd, f.files, f.offset
    ensures ok && seen == f.Device() == old(f.Device())
  {
    var total := f.g.totalChunks;
    seen := [];
    f.Reopen(false);
    DeviceLength(f.g, f.files[..]);
    var r := f.Seek(0, SeekSet);
    if r == -1 {
      return false, seen;
    }
    for i := 0 to total
      invariant StandsAt(f, i) && f.files[..] == old(f.files[..])
      invariant seen == f.Device()[..i]
    {
      var data;
      data, r := ReadNext(f, i);
      if r == -1 {
        return false, seen;
      }
      seen := seen + [data];
    }
    ok := true;
  }

  /** doseek, which is called for positions below `chunks()`: it reads the chunk at `where`; with `update` exactly that
      chunk changes, by one decremented byte. */
  method DoSeek(f: CFileOp, where: int, update: bool, random: nat) returns (rc: int)
    requires f.Valid() && Full(f.g, f.files[..]) && Chunks(f.Device(), f.chunkSize) && Inside(f.g, where)
    modifies f`curPos, f`fileInd, f.files, f.offset
    ensures rc == 0 && f.Valid() && Full(f.g, f.files[..])
    ensures where < |old(f.Device())| && |old(f.Device())[where]| == f.chunkSize
    ensures f.Device() == if update then old(f.Device())[where := Lowered(old(f.Device())[where], random % f.chunkSize)]
                          else old(f.Device())
  {
    DeviceLength(f.g, f.files[..]);
    var r := f.Seek(where, SeekSet);
    if r == -1 {
      return 1;
    }
    var data;
    data, r := ReadNext(f, where);
    if r == -1 {
      return 1;
    }
    if update {
      data := Lowered(data, random % f.chunkSize);
      r := f.Seek(where, SeekSet);
      if r == -1 {
        return 1;
      }
      r := ReplaceNext(f, where, data);
      if r == -1 {
        return 1;
      }
    }
    rc := 0;
  }

  // ----- the state of the device after the passes -----

  /** Closed form: full turns over the buffer, plus one for the bytes of the last turn. */
  lemma {:induction false} IncrementsClosed(w: nat, k: nat, size: nat)
    requires k < size
    ensures Increments(w, k, size) == w / size + if k < w % size then 1 else 0
  {
    if w > 0 {
      IncrementsClosed(w - 1, k, size);
      NextDivMod(w - 1, size);
    }
  }

  /** After the write and the rewrite pass, byte k of chunk w counts the turns of the write loop over it, plus one for
      the byte that the rewrite dirtied, modulo 256. */
  lemma AfterBothPasses(written: seq<Chunk>, rewritten: seq<Chunk>, size: nat, w: nat, k: nat)
    requires size >= 1 && w < |written| && k < size
    requires AllWritten(written, |written|, size)
    requires RewrittenTo(written, rewritten, |written|, size)
    ensures |rewritten| == |written| && |rewritten[w]| == size
    ensures rewritten[w][k] == (w / size + (if k <= w % size then 1 else 0) + (if k == w % size then 1 else 0)) % 256
  {
    ChunkOfBothPasses(written, rewritten, size, w);
    ByteOfBothPasses(w, size, k);
  }

  lemma ChunkOfBothPasses(written: seq<Chunk>, rewritten: seq<Chunk>, size: nat, w: nat)
    requires size >= 1 && w < |written|
    requires AllWritten(written, |written|, size) && RewrittenTo(written, rewritten, |written|, size)
    ensures |rewritten| == |written| && rewritten[w] == Bumped(WrittenChunk(w, size), w % size)
  {
  }

  lemma ByteOfBothPasses(w: nat, size: nat, k: nat)
    requires k < size
    ensures Bumped(WrittenChunk(w, size), w % size)[k]
            == (w / size + (if k <= w % size then 1 else 0) + (if k == w % size then 1 else 0)) % 256
  {
    WrittenByte(w, size, k);
    BumpedByte(WrittenChunk(w, size), w % size, k, w / size + if k <= w % size then 1 else 0);
  }

  lemma WrittenByte(w: nat, size: nat, k: nat)
    requires k < size
    ensures WrittenChunk(w, size)[k] == (w / size + if k <= w % size then 1 else 0) % 256
  {
    IncrementsClosed(w + 1, k, size);
    NextDivMod(w, size);
  }

  lemma BumpedByte(chunk: Chunk, at: nat, k: nat, turns: nat)
    requires at < |chunk| && k < |chunk| && chunk[k] == turns % 256
    ensures Bumped(chunk, at)[k] == (turns + if k == at then 1 else 0) % 256
  {
  }

  /** What doseek does to a byte and what the rewrite pass does to it undo each other. */
  lemma LoweredUndoesBumped(chunk: Chunk, k: nat)
    requires k < |chunk|
    ensures Lowered(Bumped(chunk, k), k) == chunk && Bumped(Lowered(chunk, k), k) == chunk
  {
    UpAndDown(chunk[k]);
  }

  lemma UpAndDown(b: Byte)
    ensures Minus(Plus(b, 1), 1) == b && Plus(Minus(b, 1), 1) == b
  {
  }

  /** On a freshly written device doseek takes back one turn of the write loop: the byte has one less, modulo 256. */
  lemma LoweredByte(w: nat, size: nat, at: nat, k: nat)
    requires at < size && k < size
    ensures Lowered(WrittenChunk(w, size), at)[k]
            == (w / size + (if k <= w % size then 1 else 0) + (if k == at then 255 else 0)) % 256
  {
    WrittenByte(w, size, k);
    OneLess(w / size + if k <= w % size then 1 else 0);
  }

  lemma OneLess(turns: nat)
    ensures (turns % 256 - 1) % 256 == (turns + 255) % 256
  {
  }
}
