/** How bonnie++'s `CFileOp` lays one linear device of chunks out over files of limited size. */
module Geometries {
  import opened Arithmetic

  datatype Geometry = Geometry(chunksPerFile: nat, totalChunks: nat, lastFileChunks: nat, numFiles: nat)

  /** The linear position at which a file starts; positions run on in both directions beyond the files there are. */
  function FileStart(g: Geometry, file: int): int
    decreases if file >= 0 then file else -file
  {
    if file == 0 then 0
    else if file > 0 then FileStart(g, file - 1) + g.chunksPerFile
    else FileStart(g, file + 1) - g.chunksPerFile
  }

  function Position(g: Geometry, file: int, chunk: int): int {
    FileStart(g, file) + chunk
  }

  predicate Good(g: Geometry) {
    && g.numFiles >= 1
    && 1 <= g.lastFileChunks <= g.chunksPerFile
    && FileStart(g, g.numFiles - 1) + g.lastFileChunks == g.totalChunks
  }

  function FileChunks(g: Geometry, file: int): nat {
    if file == g.numFiles - 1 then g.lastFileChunks else g.chunksPerFile
  }

  lemma {:induction false} FileStartIsProduct(g: Geometry, file: int)
    ensures FileStart(g, file) == file * g.chunksPerFile
    decreases if file >= 0 then file else -file
  {
    if file > 0 {
      FileStartIsProduct(g, file - 1);
      assert (file - 1) * g.chunksPerFile == file * g.chunksPerFile - g.chunksPerFile;
    } else if file < 0 {
      FileStartIsProduct(g, file + 1);
      assert (file + 1) * g.chunksPerFile == file * g.chunksPerFile + g.chunksPerFile;
    }
  }

  lemma FileStartStep(g: Geometry, file: int)
    ensures FileStart(g, file + 1) == FileStart(g, file) + g.chunksPerFile
  {
  }

  lemma {:induction false} FileStartMonotone(g: Geometry, file: int, later: int)
    requires file < later
    ensures FileStart(g, file) + g.chunksPerFile <= FileStart(g, later)
    decreases later - file
  {
    FileStartStep(g, file);
    if file + 1 < later {
      FileStartMonotone(g, file + 1, later);
    }
  }

  /** The constructor's arithmetic; `perUnit` is Unit / chunk size, file sizes are in Units. */
  function MakeGeometry(perUnit: nat, ioFileSize: nat, fileSize: nat): Geometry
    requires perUnit >= 1 && ioFileSize >= 1
  {
    MultipleAtLeast(perUnit, ioFileSize);
    var chunksPerFile := perUnit * ioFileSize;
    var totalChunks := perUnit * fileSize;
    var last := totalChunks % chunksPerFile;
    var files := fileSize / ioFileSize + 1;
    if last == 0 then Geometry(chunksPerFile, totalChunks, chunksPerFile, files - 1)
    else Geometry(chunksPerFile, totalChunks, last, files)
  }

  /** The chunks of the last file are those of the left-over Units. */
  lemma LastFileSize(u: nat, io: nat, size: nat)
    requires u >= 1 && io >= 1
    ensures u * io >= 1
    ensures u * size == u * io * (size / io) + u * (size % io)
    ensures u * size % (u * io) == u * (size % io)
    ensures u * (size % io) == 0 <==> size % io == 0
  {
    var q, r := size / io, size % io;
    MultipleAtLeast(u, io);
    assert size == io * q + r;
    assert u * (io * q + r) == u * io * q + u * r;
    ScaledLess(u, r, io);
    assert r * u == u * r && io * u == u * io;
    DivModUnique(u * size, u * io, q, u * r);
    if r >= 1 {
      MultipleAtLeast(u, r);
    }
  }

  /** The files are exactly enough: their sizes add up to the whole device and none is empty. */
  lemma GeometryIsGood(perUnit: nat, ioFileSize: nat, fileSize: nat)
    requires perUnit >= 1 && ioFileSize >= 1 && fileSize >= 1
    ensures Good(MakeGeometry(perUnit, ioFileSize, fileSize))
  {
    LastFileSize(perUnit, ioFileSize, fileSize);
    var g := MakeGeometry(perUnit, ioFileSize, fileSize);
    var q := fileSize / ioFileSize;
    FileStartIsProduct(g, q);
    assert q * g.chunksPerFile == g.chunksPerFile * q;
    if fileSize % ioFileSize == 0 {
      assert q >= 1;
      FileStartStep(g, q - 1);
    }
  }

  /** The layout in the constructor's own terms: every file but the last has the full size, the last one has what is left,
      and there are as many files as the size takes, rounded up. */
  lemma GeometryAsAsked(perUnit: nat, ioFileSize: nat, fileSize: nat)
    requires perUnit >= 1 && ioFileSize >= 1 && fileSize >= 1
    ensures var g := MakeGeometry(perUnit, ioFileSize, fileSize);
            && g.totalChunks == perUnit * fileSize && g.chunksPerFile == perUnit * ioFileSize
            && (g.numFiles - 1) * ioFileSize < fileSize <= g.numFiles * ioFileSize
            && (forall file :: 0 <= file < g.numFiles - 1 ==> FileChunks(g, file) == perUnit * ioFileSize)
            && FileChunks(g, g.numFiles - 1) == perUnit * (fileSize - (g.numFiles - 1) * ioFileSize)
  {
    LastFileSize(perUnit, ioFileSize, fileSize);
    var q, r := fileSize / ioFileSize, fileSize % ioFileSize;
    assert fileSize == q * ioFileSize + r;
    assert (q + 1) * ioFileSize == q * ioFileSize + ioFileSize;
    if r == 0 {
      assert (q - 1) * ioFileSize == q * ioFileSize - ioFileSize;
    }
  }

  /** A position with a chunk in it. */
  predicate Inside(g: Geometry, target: int) {
    0 <= target < g.totalChunks
  }

  /** One file's worth of positions behind the last file, which `seek` folds back into the last file. */
  predicate Folded(g: Geometry, target: int) {
    FileStart(g, g.numFiles) <= target < FileStart(g, g.numFiles + 1)
  }

  /** How file index and chunk index decide where a position lies. */
  lemma PositionCases(g: Geometry, file: int, chunk: int)
    requires Good(g) && 0 <= chunk < g.chunksPerFile
    ensures file == g.numFiles <==> Folded(g, Position(g, file, chunk))
    ensures 0 <= file < g.numFiles && chunk < FileChunks(g, file) <==> Inside(g, Position(g, file, chunk))
  {
    var n := g.numFiles;
    FileStartStep(g, n);
    FileStartStep(g, n - 1);
    if file < 0 {
      FileStartMonotone(g, file, 0);
      FileStartMonotone(g, 0, n);
    } else if file < n {
      FileStartMonotone(g, file, n);
      if file < n - 1 {
        FileStartMonotone(g, file, n - 1);
      }
      if file > 0 {
        FileStartMonotone(g, 0, file);
      }
    } else if file > n {
      FileStartMonotone(g, n, file);
      if file > n + 1 {
        FileStartMonotone(g, n + 1, file);
      }
    }
  }

  lemma NegativePosition(g: Geometry, file: int, chunk: int)
    requires Good(g) && chunk < 0 && file <= 0
    ensures !Inside(g, Position(g, file, chunk)) && !Folded(g, Position(g, file, chunk))
  {
    FileStartMonotone(g, 0, g.numFiles);
    if file < 0 {
      FileStartMonotone(g, file, 0);
    }
  }

  lemma TruncatedPosition(g: Geometry, a: int)
    requires Good(g)
    ensures var q, r := Quotient(a, g.chunksPerFile), Remainder(a, g.chunksPerFile);
            && Position(g, q, r) == a
            && r < g.chunksPerFile
            && (a >= 0 ==> 0 <= r)
            && (a < 0 ==> r <= 0 && q <= 0)
  {
    var d := g.chunksPerFile;
    var q, r := Quotient(a, d), Remainder(a, d);
    FileStartIsProduct(g, q);
    if a >= 0 {
      assert a == d * (a / d) + a % d;
      assert q * d == d * (a / d);
    } else {
      assert -a == d * (-a / d) + -a % d;
      assert q * d == -(d * (-a / d));
    }
  }

  /** A device of one file of four chunks: position 5 is behind its end and yet inside the window. */
  lemma WindowBehindFour()
    ensures MakeGeometry(4, 1, 1).totalChunks == 4
    ensures !Inside(MakeGeometry(4, 1, 1), 5) && Folded(MakeGeometry(4, 1, 1), 5)
  {
    var g := MakeGeometry(4, 1, 1);
    FileStartStep(g, 0);
    FileStartStep(g, 1);
  }
}
