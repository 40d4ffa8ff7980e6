/** bonnie++'s `CFileOp` over a model of the operating system: each file is a sequence of chunks and each descriptor
    has a byte offset.  All transfers are whole chunks. */
module FileOps {
  import opened Arithmetic
  import opened Geometries

  type Byte = b: int | 0 <= b < 256

  type Chunk = seq<Byte>

  datatype Whence = SeekSet | SeekCur | SeekOther

  /** All files one after another. */
  function Flatten(files: seq<seq<Chunk>>): seq<Chunk> {
    if files == [] then [] else Flatten(files[..|files| - 1]) + files[|files| - 1]
  }

  class CFileOp {
    const g: Geometry
    const chunkSize: nat
    var curPos: int
    var fileInd: int
    var files: array<seq<Chunk>>
    var offset: array<nat>

    ghost predicate Valid()
      reads this
    {
      Good(g) && chunkSize >= 1 && files.Length == g.numFiles && offset.Length == g.numFiles
    }

    ghost function Pos(): int
      reads this
    {
      Position(g, fileInd, curPos)
    }

    /** There is a chunk at the current position. */
    ghost predicate AtChunk()
      reads this
    {
      0 <= fileInd < g.numFiles && 0 <= curPos < FileChunks(g, fileInd)
    }

    /** The descriptor of the current file stands where `curPos` says. */
    ghost predicate InSync()
      reads this, offset
    {
      0 <= fileInd < offset.Length && 0 <= curPos && offset[fileInd] == curPos * chunkSize
    }

    ghost function Device(): seq<Chunk>
      reads this, files
    {
      Flatten(files[..])
    }

    constructor (perUnit: nat, ioFileSize: nat, fileSize: nat, chunkSize: nat)
      requires perUnit >= 1 && ioFileSize >= 1 && fileSize >= 1 && chunkSize >= 1
      ensures g == MakeGeometry(perUnit, ioFileSize, fileSize) && this.chunkSize == chunkSize
      ensures g.totalChunks == perUnit * fileSize && g.chunksPerFile == perUnit * ioFileSize
      ensures (g.numFiles - 1) * ioFileSize < fileSize <= g.numFiles * ioFileSize
      ensures forall file :: 0 <= file < g.numFiles - 1 ==> FileChunks(g, file) == perUnit * ioFileSize
      ensures FileChunks(g, g.numFiles - 1) == perUnit * (fileSize - (g.numFiles - 1) * ioFileSize)
      ensures Valid() && fresh(files) && fresh(offset) && Pos() == 0
    {
      GeometryIsGood(perUnit, ioFileSize, fileSize);
      GeometryAsAsked(perUnit, ioFileSize, fileSize);
      var geometry := MakeGeometry(perUnit, ioFileSize, fileSize);
      g := geometry;
      this.chunkSize := chunkSize;
      curPos, fileInd := 0, 0;
      files := new seq<Chunk>[geometry.numFiles](_ => []);
      offset := new nat[geometry.numFiles](_ => 0);
    }

    /** reopen: back to the start, with empty files when they are created from scratch. */
    method Reopen(create: bool)
      requires Valid()
      modifies this`curPos, this`fileInd, files, offset
      ensures fileInd == 0 && curPos == 0 && Pos() == 0 && AtChunk() && InSync()
      ensures create ==> forall i :: 0 <= i < files.Length ==> files[i] == []
      ensures !create ==> files[..] == old(files[..])
    {
      curPos, fileInd := 0, 0;
      for i := 0 to g.numFiles
        invariant fileInd == 0 && curPos == 0
        invariant forall k :: 0 <= k < i ==> offset[k] == 0
        invariant create ==> forall k :: 0 <= k < i ==> files[k] == []
        invariant !create ==> files[..] == old(files[..])
      {
        offset[i] := 0;
        if create {
          files[i] := [];
        }
      }
    }

    /** lseek(fd, off, SEEK_SET); a negative offset is refused. */
    method LSeek(fd: nat, off: int) returns (rc: int)
      requires fd < offset.Length
      modifies offset
      ensures rc == if off >= 0 then 0 else -1
      ensures offset[..] == if off >= 0 then old(offset[..])[fd := off] else old(offset[..])
    {
      if off < 0 {
        return -1;
      }
      offset[fd] := off;
      rc := 0;
    }

    /** The part of seek that computes the new file and chunk, before any check. */
    method Locate(off: int, whence: Whence)
      requires Good(g) && !whence.SeekOther?
      modifies this`curPos, this`fileInd
      ensures Pos() == if whence.SeekSet? then off else old(Pos()) + off
      ensures curPos < g.chunksPerFile && (curPos < 0 ==> whence.SeekSet? && fileInd <= 0)
    {
      if whence.SeekSet? {
        TruncatedPosition(g, off);
        fileInd, curPos := Quotient(off, g.chunksPerFile), Remainder(off, g.chunksPerFile);
      } else {
        curPos := curPos + off;
        while curPos < 0
          invariant Pos() == old(Pos()) + off
          decreases -curPos
        {
          FileStartStep(g, fileInd - 1);
          fileInd, curPos := fileInd - 1, curPos + g.chunksPerFile;
        }
        while curPos >= g.chunksPerFile
          invariant Pos() == old(Pos()) + off && curPos >= 0
          decreases curPos
        {
          FileStartStep(g, fileInd);
          fileInd, curPos := fileInd + 1, curPos - g.chunksPerFile;
        }
      }
    }

    /** seek: the fields always end up at the requested linear position; the call succeeds exactly for positions inside
        the device and for the folded window behind it, and only inside the device is the descriptor moved. */
    method Seek(off: int, whence: Whence) returns (r: int)
      requires Valid()
      modifies this`curPos, this`fileInd, offset
      ensures whence.SeekOther? ==>
                r == -1 && fileInd == old(fileInd) && curPos == old(curPos) && offset[..] == old(offset[..])
      ensures !whence.SeekOther? ==>
                var target := if whence.SeekSet? then off else old(Pos()) + off;
                && Pos() == target
                && r == (if Inside(g, target) || Folded(g, target) then 0 else -1)
                && (Inside(g, target) ==> AtChunk() && InSync())
                && (Inside(g, target) ==> forall i :: 0 <= i < offset.Length && i != fileInd ==> offset[i] == old(offset[i]))
                && (Folded(g, target) ==> fileInd == g.numFiles - 1 && curPos >= g.chunksPerFile)
                && (!Inside(g, target) ==> offset[..] == old(offset[..]))
    {
      if whence.SeekOther? {
        return -1;
      }
      Locate(off, whence);
      if curPos < 0 {
        NegativePosition(g, fileInd, curPos);
      } else {
        PositionCases(g, fileInd, curPos);
      }
      if fileInd == g.numFiles {
        FileStartStep(g, fileInd - 1);
        fileInd, curPos := fileInd - 1, curPos + g.chunksPerFile;
        return 0;
      }
      if fileInd < 0 || fileInd >= g.numFiles || (fileInd == g.numFiles - 1 && curPos >= g.lastFileChunks) {
        return -1;
      }
      SignOfProduct(curPos, chunkSize);
      r := LSeek(fileInd, curPos * chunkSize);
    }

    /** The end of a block transfer: count the chunk and move on to the next file at a file's end. */
    method Advance() returns (ok: bool)
      requires Valid() && AtChunk() && offset[fileInd] == (curPos + 1) * chunkSize
      modifies this`curPos, this`fileInd, offset
      ensures ok && Pos() == old(Pos()) + 1 && InSync()
      ensures Inside(g, Pos()) <==> AtChunk()
      ensures AtChunk() <==> old(Pos()) + 1 < g.totalChunks
    {
      PositionCases(g, fileInd, curPos);
      curPos := curPos + 1;
      if curPos >= g.chunksPerFile {
        FileStartStep(g, fileInd);
        PositionCases(g, fileInd + 1, 0);
        assert Position(g, fileInd + 1, 0) == Pos();
        label before:
        var r := Seek(0, SeekCur);
        if Folded(g, Pos()) {
          assert old@before(fileInd) == g.numFiles - 1;
          assert curPos == old@before(curPos);
        }
        ok := r != -1;
      } else {
        PositionCases(g, fileInd, curPos);
        ok := true;
      }
    }

    /** read_block: what the descriptor's offset points at, and the position moves on by one chunk. */
    method ReadBlock() returns (buf: Chunk, r: int)
      requires Valid() && AtChunk() && InSync() && curPos < |files[fileInd]|
      modifies this`curPos, this`fileInd, offset
      ensures r == chunkSize && buf == old(files[fileInd][curPos])
      ensures Pos() == old(Pos()) + 1 && InSync()
      ensures Inside(g, Pos()) <==> AtChunk()
      ensures AtChunk() <==> old(Pos()) + 1 < g.totalChunks
    {
      OffsetIsChunk(curPos, chunkSize);
      buf := files[fileInd][offset[fileInd] / chunkSize];
      offset[fileInd] := offset[fileInd] + chunkSize;
      var ok := Advance();
      r := if ok then chunkSize else -1;
    }

    /** write_block: the chunk at the descriptor's offset is replaced, or the file grows by one chunk. */
    method WriteBlock(buf: Chunk) returns (r: int)
      requires Valid() && AtChunk() && InSync() && curPos <= |files[fileInd]|
      modifies this`curPos, this`fileInd, files, offset
      ensures r == chunkSize
      ensures files[..] == old(files[..])[old(fileInd) := WithChunk(old(files[fileInd]), old(curPos), buf)]
      ensures Pos() == old(Pos()) + 1 && InSync()
      ensures Inside(g, Pos()) <==> AtChunk()
      ensures AtChunk() <==> old(Pos()) + 1 < g.totalChunks
    {
      OffsetIsChunk(curPos, chunkSize);
      files[fileInd] := WithChunk(files[fileInd], offset[fileInd] / chunkSize, buf);
      offset[fileInd] := offset[fileInd] + chunkSize;
      var ok := Advance();
      r := if ok then chunkSize else -1;
    }
  }

  function WithChunk(file: seq<Chunk>, chunk: nat, buf: Chunk): seq<Chunk>
    requires chunk <= |file|
  {
    if chunk < |file| then file[chunk := buf] else file + [buf]
  }

  lemma SignOfProduct(x: int, size: nat)
    requires size >= 1
    ensures x * size >= 0 <==> x >= 0
  {
  }

  lemma OffsetIsChunk(chunk: nat, size: nat)
    requires size >= 1
    ensures chunk * size / size == chunk && chunk * size + size == (chunk + 1) * size
  {
    DivModUnique(chunk * size, size, chunk, 0);
  }

  // ----- the files as one device -----

  predicate Full(g: Geometry, files: seq<seq<Chunk>>) {
    |files| == g.numFiles && forall i :: 0 <= i < |files| ==> |files[i]| == FileChunks(g, i)
  }

  /** Everything before the given chunk is written, nothing from it on. */
  predicate FilledTo(g: Geometry, files: seq<seq<Chunk>>, file: nat, chunk: nat) {
    && |files| == g.numFiles && file < |files| && chunk <= FileChunks(g, file)
    && (forall i :: 0 <= i < file ==> |files[i]| == FileChunks(g, i))
    && |files[file]| == chunk
    && (forall i :: file < i < |files| ==> files[i] == [])
  }

  lemma {:induction false} FlattenSplit(files: seq<seq<Chunk>>, i: nat)
    requires i < |files|
    ensures Flatten(files) == Flatten(files[..i]) + files[i] + Flatten(files[i + 1..])
    decreases |files|
  {
    var front, last := files[..|files| - 1], files[|files| - 1];
    if i == |files| - 1 {
      assert files[i + 1..] == [];
    } else {
      FlattenSplit(front, i);
      assert front[..i] == files[..i];
      var rest := files[i + 1..];
      assert rest[..|rest| - 1] == front[i + 1..];
    }
  }

  lemma {:induction false} FlattenLength(g: Geometry, files: seq<seq<Chunk>>, i: nat)
    requires i <= |files| <= g.numFiles && i <= g.numFiles - 1
    requires forall k :: 0 <= k < i ==> |files[k]| == FileChunks(g, k)
    ensures |Flatten(files[..i])| == FileStart(g, i)
  {
    if i > 0 {
      FlattenLength(g, files, i - 1);
      assert files[..i][..i - 1] == files[..i - 1];
      FileStartStep(g, i - 1);
    }
  }

  lemma {:induction false} FlattenEmpty(files: seq<seq<Chunk>>)
    requires forall i :: 0 <= i < |files| ==> files[i] == []
    ensures Flatten(files) == []
  {
    if files != [] {
      FlattenEmpty(files[..|files| - 1]);
    }
  }

  /** The full device has as many chunks as the constructor computed. */
  lemma DeviceLength(g: Geometry, files: seq<seq<Chunk>>)
    requires Good(g) && Full(g, files)
    ensures |Flatten(files)| == g.totalChunks
  {
    var n := g.numFiles - 1;
    FlattenSplit(files, n);
    FlattenLength(g, files, n);
    assert files[n + 1..] == [];
  }

  /** A chunk of a file is the chunk of the device at its linear position. */
  lemma DeviceRead(g: Geometry, files: seq<seq<Chunk>>, file: nat, chunk: nat)
    requires Good(g) && Full(g, files) && file < g.numFiles && chunk < FileChunks(g, file)
    ensures 0 <= Position(g, file, chunk) < |Flatten(files)|
    ensures Flatten(files)[Position(g, file, chunk)] == files[file][chunk]
  {
    FlattenSplit(files, file);
    FlattenLength(g, files, file);
  }

  /** Replacing a chunk of a file replaces one chunk of the device. */
  lemma DeviceWrite(g: Geometry, files: seq<seq<Chunk>>, file: nat, chunk: nat, buf: Chunk)
    requires Good(g) && Full(g, files) && file < g.numFiles && chunk < FileChunks(g, file)
    ensures 0 <= Position(g, file, chunk) < |Flatten(files)|
    ensures var after := files[file := WithChunk(files[file], chunk, buf)];
            Full(g, after) && Flatten(after) == Flatten(files)[Position(g, file, chunk) := buf]
  {
    var after := files[file := WithChunk(files[file], chunk, buf)];
    FlattenSplit(files, file);
    FlattenSplit(after, file);
    FlattenLength(g, files, file);
    assert after[..file] == files[..file] && after[file + 1..] == files[file + 1..];
  }

  /** Writing at the end of what is written appends to the device. */
  lemma DeviceAppend(g: Geometry, files: seq<seq<Chunk>>, file: nat, chunk: nat, buf: Chunk)
    requires Good(g) && FilledTo(g, files, file, chunk) && chunk < FileChunks(g, file)
    ensures var after := files[file := WithChunk(files[file], chunk, buf)];
            FilledTo(g, after, file, chunk + 1) && Flatten(after) == Flatten(files) + [buf]
  {
    var after := files[file := WithChunk(files[file], chunk, buf)];
    FlattenSplit(files, file);
    FlattenSplit(after, file);
    assert after[..file] == files[..file] && after[file + 1..] == files[file + 1..];
    FlattenEmpty(files[file + 1..]);
  }

  /** Two descriptions of a position with a chunk are the same. */
  lemma PositionUnique(g: Geometry, file: int, chunk: int, file': int, chunk': int)
    requires Good(g)
    requires 0 <= file < g.numFiles && 0 <= chunk < FileChunks(g, file)
    requires 0 <= file' < g.numFiles && 0 <= chunk' < FileChunks(g, file')
    requires Position(g, file, chunk) == Position(g, file', chunk')
    ensures file == file' && chunk == chunk'
  {
    if file < file' {
      FileStartMonotone(g, file, file');
    } else if file' < file {
      FileStartMonotone(g, file', file);
    }
  }
}
