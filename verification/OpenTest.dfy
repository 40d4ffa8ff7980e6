/** bonnie++'s `COpenTest`: creating many files and deleting them again. */
module OpenTests {
  import opened Arithmetic
  import opened Pigeonhole
  import opened FileSystems
  import opened Names
  import opened Shuffling
  import opened TestWorlds

  /** Reading a directory, in any order, and unlinking what is not hidden: works exactly when all of that is files. */
  method EmptyDirectory(fs0: FileSystem) returns (ok: bool, fs: FileSystem, count: nat)
    requires forall e :: e in Listing(fs0) ==> '/' !in e
    ensures ok <==> AllHereFiles(fs0)
    ensures ok ==> fs == fs0.(files := fs0.files - VisibleFiles(fs0))
    ensures count + |fs.files| == |fs0.files|
  {
    fs, count := fs0, 0;
    var remaining := Listing(fs0);
    ghost var gone: set<Path> := {};
    while remaining != {}
      invariant Emptying(fs0, fs, remaining, gone) && count + |fs.files| == |fs0.files|
      decreases |remaining|
    {
      var entry :| entry in remaining;
      if Hidden(entry) {
        EmptyingHidden(fs0, fs, remaining, gone, entry);
      } else {
        EmptyingStep(fs0, fs, remaining, gone, entry);
        var unlinked := Unlink(fs, entry);
        if unlinked.None? {
          return false, fs, count;
        }
        fs, count, gone := unlinked.value, count + 1, gone + {fs0.cwd + [entry]};
      }
      remaining := remaining - {entry};
    }
    EmptyingEnds(fs0, fs, gone);
    ok := true;
  }

  /** stat_file, and the open and read that follow it. */
  function StatFile(fs: FileSystem, links: Option<Links>, name: string): int {
    if Followed(fs.files, links, Resolve(fs, name)) then 0 else -1
  }

  /** Reading a directory, in any order, and looking at what is not hidden: works exactly when all of that leads to files. */
  method ScanDirectory(fs: FileSystem, links: Option<Links>) returns (ok: bool, count: nat)
    requires forall e :: e in Listing(fs) ==> '/' !in e
    ensures ok <==> AllHereFollowed(fs, links)
    ensures ok ==> count == |VisibleFiles(fs)|
  {
    count := 0;
    var remaining := Listing(fs);
    ghost var seen: set<Path> := {};
    while remaining != {}
      invariant Scanning(fs, links, remaining, seen) && count == |seen|
      decreases |remaining|
    {
      var entry :| entry in remaining;
      if Hidden(entry) {
        ScanningHidden(fs, links, remaining, seen, entry);
      } else {
        OneComponent(entry);
        if StatFile(fs, links, entry) == -1 {
          return false, count;
        }
        ScanningStep(fs, links, remaining, seen, entry);
        count, seen := count + 1, seen + {fs.cwd + [entry]};
      }
      remaining := remaining - {entry};
    }
    ScanningEnds(fs, links, seen);
    ok := true;
  }

  /** The buffer of names, with a pointer to each. */
  method WriteNames(c: Config, dirIndex: array?<nat>) returns (buf: array<char>, fileNames: array<nat>)
    requires ValidConfig(c) && Fits(c)
    requires dirIndex != null ==> dirIndex.Length >= c.number
    modifies if dirIndex == null then {} else {dirIndex}
    ensures fresh(buf) && fresh(fileNames) && fileNames.Length == c.number
    ensures forall i :: 0 <= i < c.number ==> fileNames[i] <= buf.Length
    ensures NamesAt(buf[..], fileNames[..]) == AllNames(c)
    ensures dirIndex != null
            ==> forall i :: 0 <= i < c.number ==> dirIndex[i] == DirectoryNumber(AllNames(c)[i], c.directories)
  {
    buf := new char[Slot(c) * c.number];
    fileNames := new nat[c.number];
    FillNames(c, buf, fileNames, dirIndex, AllNames(c));
    NamesReadBack(c, buf[..], fileNames[..]);
    if dirIndex != null {
      DirectoriesMatch(c, dirIndex[..]);
    }
  }

  /** Two of the first n elements change places. */
  method Exchange(a: array<nat>, i: nat, k: nat, n: nat)
    requires i < n <= a.Length && k < n
    modifies a
    ensures a[..n] == Swap(old(a[..n]), i, k)
  {
    a[i], a[k] := a[k], a[i];
  }

  const DIRECTORY_UNIT: nat := 1024

  class COpenTest {
    const sync: bool
    var number: nat
    var numberDirectories: nat
    var max: int
    var dirname: Option<string>
    var fileNameBuf: array<char>
    var fileNames: array<nat>
    var handles: array<Path>
    var dirIndex: array?<nat>

    constructor (useSync: bool)
      ensures sync == useSync && dirIndex == null && dirname == None && fresh(fileNames) && fresh(handles)
    {
      sync := useSync;
      number, numberDirectories, max, dirname := 0, 1, 0, None;
      fileNameBuf, fileNames, handles, dirIndex := new char[0], new nat[0], new Path[0], null;
    }

    ghost predicate Valid()
      reads `numberDirectories, `number, `fileNames, `fileNameBuf, `dirIndex, fileNameBuf, fileNames
    {
      && numberDirectories >= 1 && fileNames.Length == number
      && (forall i :: 0 <= i < number ==> fileNames[i] <= fileNameBuf.Length)
      && (dirIndex != null ==> dirIndex.Length >= number && dirIndex != fileNames)
    }

    ghost function FileNames(): seq<string>
      requires Valid()
      reads `numberDirectories, `number, `fileNames, `fileNameBuf, `dirIndex, fileNameBuf, fileNames
    {
      NamesAt(fileNameBuf[..], fileNames[..])
    }

    /** In synchronous mode every entry of dirIndex is the directory that the name beside it is in. */
    ghost predicate Aligned()
      requires Valid()
      reads `numberDirectories, `number, `fileNames, `fileNameBuf, `dirIndex, fileNameBuf, fileNames, dirIndex
    {
      sync ==> dirIndex != null
               && forall i :: 0 <= i < number ==> dirIndex[i] == DirectoryNumber(FileNames()[i], numberDirectories)
    }

    ghost predicate HandlesOpen(root: Path)
      reads `numberDirectories, `handles, handles
    {
      sync ==> handles.Length == numberDirectories
               && forall d :: 0 <= d < numberDirectories ==> handles[d] == Home(root, numberDirectories, d)
    }

    /** `m_directoryHandles[m_dirIndex[i]]`: the directory that file i is in. */
    method HandleFor(i: nat, ghost root: Path) returns (home: Path)
      requires Valid() && Aligned() && AllPlaced(FileNames(), numberDirectories) && HandlesOpen(root)
      requires sync && i < number
      ensures home == Parent(root + Components(FileNames()[i]))
    {
      ghost var name := FileNames()[i];
      assert Placed(name, numberDirectories);
      PlacedAtHome(root, numberDirectories, name);
      home := handles[dirIndex[i]];
    }

    /** The loop of create: it fails exactly when a link would replace a file. */
    method CreateFiles(fs0: FileSystem, name: string, ghost before: FileSystem)
      returns (r: int, fs: FileSystem, synced: seq<Path>)
      requires Valid() && Aligned() && AllPlaced(FileNames(), numberDirectories)
      requires Free(before, name) && HandlesOpen(before.cwd + [name])
      requires fs0 == World(before, before.cwd + [name], 0, numberDirectories, {})
      ensures r == 0 <==> (max < 0 ==> Distinct(FileNames()))
      ensures var root := before.cwd + [name];
              r == 0 ==> fs == World(before, root, 0, numberDirectories, NamePaths(root, FileNames()))
                         && (sync ==> Homes(synced, root, FileNames()))
    {
      ghost var root, names, n := before.cwd + [name], FileNames(), numberDirectories;
      fs, synced := fs0, [];
      assert NamePaths(root, names[..0]) == {};
      for i := 0 to number
        invariant fs == World(before, root, 0, n, NamePaths(root, names[..i]))
        invariant max < 0 ==> NoneRepeated(names, i)
        invariant sync ==> |synced| == i && HomesSoFar(synced, root, names)
      {
        CreateStep(before, name, n, names, i);
        RepeatedName(names, i);
        var file := CString(fileNameBuf[..], fileNames[i]);
        var made := CreateFile(fs, file);
        if max < 0 && i > 0 {
          var original := CString(fileNameBuf[..], fileNames[0]);
          made := if max == -1 then MakeLink(fs, original, file) else MakeSymlink(fs, file);
        }
        if made.None? {
          return -1, fs, synced;
        }
        fs := made.value;
        if sync {
          var home := HandleFor(i, root);
          NextHome(synced, root, names, home);
          synced := synced + [home];
        }
      }
      assert names[..number] == names;
      NoneRepeatedMeans(names, number);
      r := 0;
    }

    /** create's names: in the buffer it allocates, with the directory of each in synchronous mode. */
    method MakeNames(c: Config)
      requires ValidConfig(c) && Fits(c) && c.number == number && c.directories == numberDirectories
      requires dirIndex != null ==> dirIndex.Length >= number
      modifies `fileNameBuf, `fileNames, `dirIndex, dirIndex
      ensures Valid() && Aligned() && FileNames() == AllNames(c)
      ensures fresh(fileNameBuf) && fresh(fileNames) && (dirIndex == old(dirIndex) || fresh(dirIndex))
    {
      if dirIndex == null && sync {
        dirIndex := new nat[number];
      }
      fileNameBuf, fileNames := WriteNames(c, dirIndex);
    }

    /** Between create and delete: the files are there, under the names that are kept. */
    ghost predicate Prepared(before: FileSystem, fs: FileSystem)
      reads this, fileNameBuf, fileNames, dirIndex, handles
    {
      && Valid() && Aligned() && AllPlaced(FileNames(), numberDirectories)
      && dirname.Some? && Free(before, dirname.value) && HandlesOpen(before.cwd + [dirname.value])
      && var root := before.cwd + [dirname.value];
      fs == World(before, root, 0, numberDirectories, NamePaths(root, FileNames()))
    }

    /** create succeeds exactly when there are not too many directories, nothing has the name of the test directory, and
        no link is to replace a file; it leaves exactly the files it names. */
    method Create(before: FileSystem, name: string, num: nat, maxSize: int, directories: nat, c: Config)
      returns (r: int, fs: FileSystem, synced: seq<Path>)
      requires FileSystems.Valid(before) && PlainName(name) && directories >= 1
      requires c.number == num * DIRECTORY_UNIT && c.directories == directories
      requires directories < 100000 ==> ValidConfig(c) && Fits(c)
      requires dirIndex != null ==> dirIndex.Length >= c.number
      modifies this, dirIndex
      ensures r == 0 <==> && directories < 100000 && Free(before, name)
                          && (maxSize < 0 ==> Distinct(AllNames(c)))
      ensures r == 0 ==> Prepared(before, fs) && dirname == Some(name) && numberDirectories == directories && max == maxSize
      ensures r == 0 ==> FileNames() == AllNames(c) && (sync ==> Homes(synced, before.cwd + [name], AllNames(c)))
      ensures r == 0 ==> fresh(fileNames) && fresh(fileNameBuf) && (dirIndex == old(dirIndex) || fresh(dirIndex))
    {
      fs, synced := before, [];
      if directories >= 100000 {
        return -1, fs, synced;
      }
      number, numberDirectories := num * DIRECTORY_UNIT, directories;
      MakeNames(c);
      assert AllPlaced(AllNames(c), directories) by {
        GeneratedNamesPlaced(c);
      }
      r, fs, synced := MakeTree(before, name, maxSize, AllNames(c));
    }

    /** create, once the names are made. */
    method MakeTree(before: FileSystem, name: string, maxSize: int, ghost names: seq<string>)
      returns (r: int, fs: FileSystem, synced: seq<Path>)
      requires Valid() && Aligned() && FileNames() == names && AllPlaced(names, numberDirectories)
      requires FileSystems.Valid(before) && PlainName(name)
      modifies `max, `dirname, `handles
      ensures r == 0 <==> Free(before, name) && (maxSize < 0 ==> Distinct(names))
      ensures r == 0 ==> Prepared(before, fs) && dirname == Some(name) && FileNames() == names && max == maxSize
      ensures r == 0 ==> (sync ==> Homes(synced, before.cwd + [name], names))
    {
      max, dirname, synced := maxSize, Some(name), [];
      r, fs := EnterDirectory(before, name);
      if r != 0 {
        return;
      }
      r, fs := MakeSubdirectories(fs, before, name);
      if r != 0 {
        return;
      }
      r, fs, synced := CreateFiles(fs, name, before);
    }

    /** The test directory itself. */
    method EnterDirectory(before: FileSystem, name: string) returns (r: int, fs: FileSystem)
      requires FileSystems.Valid(before) && PlainName(name)
      ensures r == 0 <==> Free(before, name)
      ensures r == 0 ==> fs == Furnished(before, before.cwd + [name], 0)
    {
      EnterTestDirectory(before, name);
      fs := before;
      var made := MakeDirectory(fs, name);
      if made.None? {
        return -1, fs;
      }
      fs := made.value;
      var entered := ChangeDirectory(fs, name);
      if entered.None? {
        return -1, fs;
      }
      return 0, entered.value;
    }

    /** The numbered directories, when there are several, and the handles for synchronous mode. */
    method MakeSubdirectories(fs0: FileSystem, ghost before: FileSystem, ghost name: string)
      returns (r: int, fs: FileSystem)
      requires Free(before, name) && fs0 == Furnished(before, before.cwd + [name], 0) && numberDirectories >= 1
      modifies `handles
      ensures r == 0 && fresh(handles)
      ensures fs == World(before, before.cwd + [name], 0, numberDirectories, {})
      ensures HandlesOpen(before.cwd + [name])
    {
      ghost var root := before.cwd + [name];
      fs := fs0;
      handles := new Path[numberDirectories](_ => []);
      FurnishedWorld(before, root, numberDirectories);
      if numberDirectories > 1 {
        for i := 0 to numberDirectories
          invariant handles.Length == numberDirectories && fresh(handles)
          invariant fs == Furnished(before, root, i) && HandlesUpTo(handles[..], root, i)
        {
          FurnishStep(before, name, i);
          var made := MakeDirectory(fs, DirectoryName(i));
          if made.None? {
            return -1, fs;
          }
          fs := made.value;
          NextHandle(handles[..], root, i, HandleOf(fs, i));
          handles[i] := HandleOf(fs, i);
        }
      } else {
        handles[0] := fs.cwd;
      }
      r := 0;
    }

    /** random_sort: the names and their directories go through the same permutation, so they stay together. */
    method RandomSort(draws: seq<nat>)
      requires Valid() && ValidDraws(draws, number) && Aligned()
      modifies fileNames, dirIndex
      ensures Valid() && Aligned() && FileNames() == Shuffle(old(FileNames()), draws, number)
    {
      ghost var pointers := fileNames[..];
      ghost var directories := if dirIndex != null then dirIndex[..number] else [];
      SwapEntries(draws);
      NamesShuffled(fileNameBuf[..], pointers, draws);
      if sync {
        NumbersShuffled(directories, old(FileNames()), draws, numberDirectories);
        assert forall i :: 0 <= i < number ==> dirIndex[i] == dirIndex[..number][i];
      }
    }

    /** The loop of random_sort. */
    method SwapEntries(draws: seq<nat>)
      requires Valid() && ValidDraws(draws, number)
      modifies fileNames, dirIndex
      ensures Valid() && fileNames[..] == Shuffle(old(fileNames[..]), draws, number)
      ensures dirIndex != null ==> dirIndex[..number] == Shuffle(old(dirIndex[..number]), draws, number)
    {
      ghost var pointers := fileNames[..];
      ghost var directories := if dirIndex != null then dirIndex[..number] else [];
      for i := 0 to number
        invariant fileNames[..] == Shuffle(pointers, draws, i)
        invariant dirIndex != null ==> dirIndex[..number] == Shuffle(directories, draws, i)
      {
        var newInd := draws[i];
        Exchange(fileNames, i, newInd, number);
        if dirIndex != null {
          Exchange(dirIndex, i, newInd, number);
        }
      }
      NamesShuffled(fileNameBuf[..], pointers, draws);
    }

    /** delete_random removes every file exactly once, finds every directory empty and leaves the file system as it was
        before create, provided no name was generated twice; if one was it fails. Each directory it synchronises is that of
        the file it has just removed. */
    method DeleteRandom(fs0: FileSystem, draws: seq<nat>, ghost before: FileSystem)
      returns (r: int, fs: FileSystem, synced: seq<Path>)
      requires Prepared(before, fs0) && ValidDraws(draws, number)
      modifies `dirname, fileNames, dirIndex
      ensures r == 0 <==> Distinct(old(FileNames()))
      ensures r == 0 ==> fs == before && dirname == None
      ensures Valid() && FileNames() == Shuffle(old(FileNames()), draws, number)
      ensures r == 0 && sync ==> Homes(synced, before.cwd + [old(dirname).value], FileNames())
    {
      ghost var root, created := before.cwd + [dirname.value], FileNames();
      RandomSort(draws);
      ShuffleKeepsElements(created, draws, number);
      PermutedNames(root, created, FileNames(), numberDirectories);
      UnlinkingEnds(before, dirname.value, numberDirectories, FileNames());
      r, fs, synced := UnlinkAll(fs0, before, dirname.value);
      if r != 0 {
        return;
      }
      r, fs := RemoveDirectories(fs, before);
    }

    /** The first loop of delete_random. */
    method UnlinkAll(fs0: FileSystem, ghost before: FileSystem, ghost name: string)
      returns (r: int, fs: FileSystem, synced: seq<Path>)
      requires Valid() && Aligned() && AllPlaced(FileNames(), numberDirectories)
      requires Free(before, name) && HandlesOpen(before.cwd + [name])
      requires fs0 == Unlinked(before, name, numberDirectories, FileNames(), 0)
      ensures r == 0 <==> Distinct(FileNames())
      ensures r == 0 ==> fs == Unlinked(before, name, numberDirectories, FileNames(), number)
      ensures r == 0 && sync ==> Homes(synced, before.cwd + [name], FileNames())
    {
      ghost var n, names, root := numberDirectories, FileNames(), before.cwd + [name];
      fs, synced := fs0, [];
      for i := 0 to number
        invariant fs == Unlinked(before, name, n, names, i) && NoneRepeated(names, i)
        invariant sync ==> |synced| == i && HomesSoFar(synced, root, names)
      {
        UnlinkingStep(before, name, n, names, i);
        var file := CString(fileNameBuf[..], fileNames[i]);
        var unlinked := Unlink(fs, file);
        if unlinked.None? {
          return -1, fs, synced;
        }
        fs := unlinked.value;
        if sync {
          var home := HandleFor(i, root);
          NextHome(synced, root, names, home);
          synced := synced + [home];
        }
      }
      UnlinkingEnds(before, name, n, names);
      NoneRepeatedMeans(names, number);
      r := 0;
    }

    /** What create has told the operating system about symbolic links. */
    method MadeLinks(fs: FileSystem) returns (links: Option<Links>)
      requires Valid()
      ensures links == LinksOf(fs.cwd, FileNames(), max)
    {
      if max < -1 && number > 0 {
        var target := CString(fileNameBuf[..], fileNames[0]);
        return Some(Links(Resolve(fs, target), target));
      }
      links := None;
    }

    /** stat_sequential finds every file exactly when no name was generated twice and no symbolic link is in a numbered
        directory. */
    method StatSequential(fs: FileSystem, links: Option<Links>, ghost before: FileSystem) returns (r: int)
      requires Prepared(before, fs) && LinksTo(links, before.cwd + [dirname.value], FileNames())
      ensures r == 0 || r == -1
      ensures r == 0 <==> Distinct(FileNames()) && LinksWork(links, numberDirectories, number)
    {
      WorldIsVisitable(before, dirname.value, numberDirectories, FileNames());
      FoundExactly(before, dirname.value, numberDirectories, FileNames(), links);
      var count;
      r, count := StatDirectories(fs, links);
      if r == 0 && count != number {
        r := -1;
      }
    }

    /** The loop of stat_sequential. */
    method StatDirectories(fs: FileSystem, links: Option<Links>) returns (r: int, count: nat)
      requires Visitable(fs, numberDirectories)
      ensures r == 0 || r == -1
      ensures r == 0 <==> AllSeen(fs, links, numberDirectories, numberDirectories)
      ensures r == 0 ==> count == SeenTo(fs, numberDirectories, numberDirectories)
    {
      var n := numberDirectories;
      count := 0;
      for i := 0 to n
        invariant AllSeen(fs, links, n, i) && count == SeenTo(fs, n, i)
      {
        var ok, found := StatDirectory(fs, i, links);
        if !ok {
          MissedForGood(fs, links, n, i);
          return -1, count;
        }
        count := count + found;
      }
      r := 0;
    }

    /** One turn of the loop of stat_sequential; the working directory is the test directory before and after it. */
    method StatDirectory(fs: FileSystem, i: nat, links: Option<Links>) returns (ok: bool, count: nat)
      requires Visitable(fs, numberDirectories) && i < numberDirectories
      ensures ok <==> AllHereFollowed(InDirectory(fs, numberDirectories, i), links)
      ensures ok ==> count == |VisibleFiles(InDirectory(fs, numberDirectories, i))|
    {
      var here := fs;
      ok, count := false, 0;
      assert InDirectory(fs, numberDirectories, i).cwd in fs.directories;
      if numberDirectories != 1 {
        DirectoryNamesDiffer(i, i);
        OneComponent(DirectoryName(i));
        var entered := ChangeDirectory(here, DirectoryName(i));
        if entered.None? {
          return;
        }
        here := entered.value;
      }
      ok, count := ScanDirectory(here, links);
    }

    /** stat_random looks the files up by name, after another shuffle. */
    method StatRandom(fs: FileSystem, links: Option<Links>, draws: seq<nat>, ghost before: FileSystem) returns (r: int)
      requires Prepared(before, fs) && LinksTo(links, before.cwd + [dirname.value], FileNames())
      requires ValidDraws(draws, number) && (links.Some? ==> Distinct(FileNames()))
      modifies fileNames, dirIndex
      ensures r == 0 || r == -1
      ensures r == 0 <==> LinksWork(links, numberDirectories, number)
      ensures Prepared(before, fs) && FileNames() == Shuffle(old(FileNames()), draws, number)
    {
      ghost var name, n, names := dirname.value, numberDirectories, FileNames();
      ghost var root := before.cwd + [name];
      AllFollowed(before, name, n, names, links);
      PathsCount(root, names);
      RandomSort(draws);
      ShuffleKeepsElements(names, draws, number);
      PermutedNames(root, names, FileNames(), n);
      r := StatNames(fs, links);
    }

    /** The loop of stat_random. */
    method StatNames(fs: FileSystem, links: Option<Links>) returns (r: int)
      requires Valid()
      ensures r == 0 || r == -1
      ensures r == 0 <==> forall p :: p in NamePaths(fs.cwd, FileNames()) ==> Followed(fs.files, links, p)
    {
      ghost var names := FileNames();
      for i := 0 to number
        invariant forall k :: 0 <= k < i ==> Followed(fs.files, links, fs.cwd + Components(names[k]))
      {
        var file := CString(fileNameBuf[..], fileNames[i]);
        if StatFile(fs, links, file) == -1 {
          assert fs.cwd + Components(names[i]) in NamePaths(fs.cwd, names);
          return -1;
        }
      }
      r := 0;
    }

    /** delete_sequential finds its files by reading the directories. Whatever order they are listed in, it removes
        everything and leaves the file system as it was before create; its count agrees with the number of files exactly
        when no name was generated twice. */
    method DeleteSequential(fs0: FileSystem, ghost before: FileSystem) returns (r: int, fs: FileSystem)
      requires Prepared(before, fs0)
      modifies `dirname
      ensures r == 0 <==> Distinct(FileNames())
      ensures fs == before && dirname == None
    {
      ghost var name, n, names := dirname.value, numberDirectories, FileNames();
      DeletingStarts(before, name, n, names);
      var count;
      r, fs, count := DeleteDirectories(fs0, before, name, names);
      if r != 0 {
        return;
      }
      DeletingEnds(before, name, n, names);
      r, fs := RemoveTestDirectory(fs);
      CreatedCount(before, name, names);
      if r == 0 && count != number {
        r := -1;
      }
    }

    /** The loop of delete_sequential. */
    method DeleteDirectories(fs0: FileSystem, ghost before: FileSystem, ghost name: string, ghost names: seq<string>)
      returns (r: int, fs: FileSystem, count: nat)
      requires Free(before, name) && AllPlaced(names, numberDirectories)
      requires fs0 == Deleted(before, name, numberDirectories, names, 0)
      ensures r == 0 && fs == Deleted(before, name, numberDirectories, names, numberDirectories)
      ensures count + |fs.files| == |fs0.files|
    {
      var n := numberDirectories;
      fs, count := fs0, 0;
      for i := 0 to n
        invariant fs == Deleted(before, name, n, names, i)
        invariant count + |fs.files| == |fs0.files|
      {
        var removed;
        r, fs, removed := DeleteDirectory(fs, i, before, name, names);
        if r != 0 {
          return;
        }
        count := count + removed;
      }
      r := 0;
    }

    /** One turn of the loop of delete_sequential. */
    method DeleteDirectory(fs0: FileSystem, i: nat, ghost before: FileSystem, ghost name: string, ghost names: seq<string>)
      returns (r: int, fs: FileSystem, count: nat)
      requires i < numberDirectories && Free(before, name) && AllPlaced(names, numberDirectories)
      requires fs0 == Deleted(before, name, numberDirectories, names, i)
      ensures r == 0 && fs == Deleted(before, name, numberDirectories, names, i + 1)
      ensures count + |fs.files| == |fs0.files|
    {
      ghost var n, root := numberDirectories, before.cwd + [name];
      ghost var created := NamePaths(root, names);
      fs, count := fs0, 0;
      HomeIsThere(before, name, i, i, n, names);
      HomeListing(before, name, i, i, n, names);
      HomeFiles(before, name, i, n, names);
      if numberDirectories != 1 {
        DirectoryNamesDiffer(i, i);
        OneComponent(DirectoryName(i));
        var entered := ChangeDirectory(fs, DirectoryName(i));
        if entered.None? {
          return -1, fs, count;
        }
        fs := entered.value;
      }
      var ok;
      ok, fs, count := EmptyDirectory(fs);
      if !ok {
        return -1, fs, count;
      }
      if numberDirectories != 1 {
        fs := ChangeDirectory(fs, "..").value;
        assert fs == World(before, root, i, n, Remaining(root, n, created, i + 1));
        RemoveStep(before, name, i, n, Remaining(root, n, created, i + 1));
        var removed := RemoveDirectory(fs, DirectoryName(i));
        if removed.None? {
          return -1, fs, count;
        }
        fs := removed.value;
      }
      r := 0;
    }

    /** The end of delete_random. */
    method RemoveDirectories(fs0: FileSystem, ghost before: FileSystem) returns (r: int, fs: FileSystem)
      requires numberDirectories >= 1 && dirname.Some? && Free(before, dirname.value)
      requires fs0 == World(before, before.cwd + [dirname.value], 0, numberDirectories, {})
      modifies `dirname
      ensures r == 0 && fs == before && dirname == None
    {
      ghost var name, n := dirname.value, numberDirectories;
      ghost var root := before.cwd + [name];
      fs := fs0;
      if numberDirectories > 1 {
        for i := 0 to numberDirectories
          invariant fs == World(before, root, i, n, {}) && dirname == Some(name)
        {
          RemoveStep(before, name, i, n, {});
          var removed := RemoveDirectory(fs, DirectoryName(i));
          if removed.None? {
            return -1, fs;
          }
          fs := removed.value;
        }
      }
      LeaveTestDirectory(before, dirname.value, n);
      r, fs := RemoveTestDirectory(fs);
    }

    /** `chdir("..") || rmdir(m_dirname)`. */
    method RemoveTestDirectory(fs0: FileSystem) returns (r: int, fs: FileSystem)
      requires dirname.Some?
      modifies `dirname
      ensures var left := fs0.(cwd := Parent(fs0.cwd));
              var removed := RemoveDirectory(left, old(dirname).value);
              if removed.Some? then r == 0 && fs == removed.value && dirname == None
              else r == -1 && fs == left && dirname == old(dirname)
    {
      fs := ChangeDirectory(fs0, "..").value;
      var removed := RemoveDirectory(fs, dirname.value);
      if removed.None? {
        return -1, fs;
      }
      fs, dirname := removed.value, None;
      r := 0;
    }
  }

  // ----- TestDirOps -----

  const MAX_DATA_PER_FILE: nat := 30

  /** The limits on the number of files: half of the memory, and 1 GiB, for the names. */
  predicate TooMany(directorySize: nat, ram: nat) {
    || (ram != 0 && directorySize * MAX_DATA_PER_FILE * 2 > ram * 1024)
    || directorySize * MAX_DATA_PER_FILE > 1024 * 1024
  }

  /** What the limits admit: up to 34952 times 1024 files, and with R MiB of memory up to R * 1024 / 60 times 1024. */
  lemma MostFiles(directorySize: nat, ram: nat)
    ensures !TooMany(directorySize, ram) <==> directorySize <= 34952 && (ram == 0 || directorySize <= ram * 1024 / 60)
  {
  }

  /** The names of both halves of the test fit their buffers. */
  ghost predicate Prepares(c: Config, directorySize: nat, directories: nat, random: bool) {
    && c.number == directorySize * DIRECTORY_UNIT && c.directories == directories && c.random == random
    && (directories < 100000 ==> ValidConfig(c) && Fits(c))
  }

  /** Both halves of the directory test: create, stat_sequential and delete_sequential; create, stat_random and
      delete_random. It succeeds exactly when it starts at all, nothing is in its way, all names differ and symbolic links
      are made in no more than one directory; it leaves no trace then. */
  method TestDirOps(before: FileSystem, name: string, directorySize: nat, ram: nat, maxSize: int, directories: nat,
                    useSync: bool, ordered: Config, random: Config, statDraws: seq<nat>, draws: seq<nat>)
    returns (r: int, fs: FileSystem)
    requires FileSystems.Valid(before) && PlainName(name) && directories >= 1
    requires Prepares(ordered, directorySize, directories, false) && Prepares(random, directorySize, directories, true)
    requires ValidDraws(statDraws, random.number) && ValidDraws(draws, random.number)
    ensures r == 0 <==> directorySize == 0
                        || (!TooMany(directorySize, ram) && directories < 100000 && Free(before, name)
                            && Distinct(AllNames(ordered)) && Distinct(AllNames(random))
                            && (maxSize >= -1 || directories == 1))
    ensures r == 0 ==> fs == before
  {
    fs := before;
    var test := new COpenTest(useSync);
    if directorySize == 0 {
      return 0, fs;
    }
    if TooMany(directorySize, ram) {
      return 1, fs;
    }
    r, fs := OrderedHalf(test, fs, name, directorySize, maxSize, directories, ordered);
    if r != 0 {
      return 1, fs;
    }
    r, fs := RandomHalf(test, fs, name, directorySize, maxSize, directories, random, statDraws, draws);
    if r != 0 {
      return 1, fs;
    }
  }

  /** Whether a half succeeds. */
  ghost predicate HalfWorks(before: FileSystem, name: string, maxSize: int, directories: nat, c: Config)
    requires directories < 100000 ==> ValidConfig(c)
  {
    directories < 100000 && Free(before, name) && Distinct(AllNames(c)) && (maxSize >= -1 || directories == 1)
  }

  method OrderedHalf(test: COpenTest, before: FileSystem, name: string, directorySize: nat, maxSize: int,
                     directories: nat, ordered: Config) returns (r: int, fs: FileSystem)
    requires FileSystems.Valid(before) && PlainName(name) && directories >= 1 && directorySize >= 1
    requires Prepares(ordered, directorySize, directories, false)
    requires test.dirIndex != null ==> test.dirIndex.Length >= ordered.number
    modifies test, test.dirIndex
    ensures r == 0 <==> HalfWorks(before, name, maxSize, directories, ordered)
    ensures r == 0 ==> fs == before && (test.dirIndex == old(test.dirIndex) || fresh(test.dirIndex))
    ensures r == 0 && test.dirIndex != null ==> test.dirIndex.Length >= ordered.number
  {
    var synced;
    r, fs, synced := test.Create(before, name, directorySize, maxSize, directories, ordered);
    if r != 0 {
      return;
    }
    var links := test.MadeLinks(fs);
    r := test.StatSequential(fs, links, before);
    if r != 0 {
      return;
    }
    r, fs := test.DeleteSequential(fs, before);
  }

  method RandomHalf(test: COpenTest, before: FileSystem, name: string, directorySize: nat, maxSize: int,
                    directories: nat, random: Config, statDraws: seq<nat>, draws: seq<nat>)
    returns (r: int, fs: FileSystem)
    requires FileSystems.Valid(before) && PlainName(name) && directories >= 1 && directorySize >= 1
    requires Prepares(random, directorySize, directories, true)
    requires ValidDraws(statDraws, random.number) && ValidDraws(draws, random.number)
    requires test.dirIndex != null ==> test.dirIndex.Length >= random.number
    modifies test, test.dirIndex
    ensures r == 0 <==> HalfWorks(before, name, maxSize, directories, random)
    ensures r == 0 ==> fs == before
  {
    var synced;
    r, fs, synced := test.Create(before, name, directorySize, maxSize, directories, random);
    if r != 0 {
      return;
    }
    ghost var names := test.FileNames();
    var links := test.MadeLinks(fs);
    r := test.StatRandom(fs, links, statDraws, before);
    if r != 0 {
      return;
    }
    ShuffleKeepsElements(names, statDraws, test.number);
    PermutedDistinct(names, test.FileNames());
    r, fs, synced := test.DeleteRandom(fs, draws, before);
  }

  /** With two directories every symbolic link leads nowhere: the file that it names is looked for below the directory of
      the link. The only file that is found is the one the links are to lead to. */
  lemma LinksInTwoDirectories(before: FileSystem, name: string, c: Config, i: nat)
    requires Free(before, name) && ValidConfig(c) && c.directories == 2 && i < c.number && Distinct(AllNames(c))
    ensures var names, root := AllNames(c), before.cwd + [name];
            Followed(before.files + NamePaths(root, names), LinksOf(root, names, -2), root + Components(names[i])) <==> i == 0
  {
    var names, root := AllNames(c), before.cwd + [name];
    GeneratedNamesPlaced(c);
    LinkFollowed(before, name, 2, names, LinksOf(root, names, -2), root + Components(names[i]));
    if root + Components(names[i]) == root + Components(names[0]) {
      assert Components(names[i]) == (root + Components(names[i]))[|root|..] == Components(names[0]);
      JoinComponents(names[i]);
      JoinComponents(names[0]);
    }
  }

  /** Up to 9765 times 1024 files the names differ and fit, whatever is drawn; with at least four directories they differ
      for every size that the test admits. */
  lemma EnoughNames(c: Config, directorySize: nat, ram: nat)
    requires ValidConfig(c) && c.number == directorySize * DIRECTORY_UNIT
    ensures directorySize <= 9765 <==> c.number <= 10000000
    ensures directorySize <= 9765 ==> Distinct(AllNames(c)) && Fits(c)
    ensures !TooMany(directorySize, ram) && c.directories >= 4 ==> Distinct(AllNames(c))
  {
    TenMillion(7);
    if directorySize <= 9765 {
      NamesDistinct(c);
      NamesFit(c);
    } else if !TooMany(directorySize, ram) && c.directories >= 4 {
      MoreDirectories(c.number, c.directories);
      NamesDistinct(c);
    }
  }

  lemma TenMillion(width: nat)
    requires width == 7
    ensures Pow10(width) == 10000000
  {
    assert Pow10(width) == 10 * Pow10(width - 1) == 100 * Pow10(width - 2) == 1000 * Pow10(width - 3)
        == 10000 * Pow10(width - 4) == 100000 * Pow10(width - 5) == 1000000 * Pow10(width - 6)
        == 10000000 * Pow10(width - 7);
  }

  lemma MoreDirectories(number: nat, directories: nat)
    requires directories >= 4 && number < 40000000
    ensures number / directories < 10000000
  {
    Commuted(directories, 10000000);
    QuotientBelow(number, directories, 10000000);
  }
}
