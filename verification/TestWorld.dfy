/** The file system while bonnie++'s `COpenTest` has its files in it: what its steps do and why they succeed. */
module TestWorlds {
  import opened Pigeonhole
  import opened FileSystems
  import opened Names
  import opened Shuffling

  // ----- the world between create and delete -----

  /** What the delete loop skips: "." and "..", and any name like them. */
  predicate Hidden(s: string) {
    |s| >= 1 && s[0] == '.'
  }

  predicate PlainName(s: string) {
    s != "" && s != "." && s != ".." && '/' !in s
  }

  /** The directory whose number stands in front of a name. */
  function DirectoryNumber(name: string, n: nat): nat {
    if n == 1 then 0 else Value(Components(name)[0])
  }

  /** The name is a visible base name in the test directory, or in one of its n numbered directories. */
  predicate Placed(name: string, n: nat) {
    var p := Components(name);
    if n == 1 then |p| == 1 && !Hidden(p[0]) else
      |p| == 2 && Value(p[0]) < n && p[0] == DirectoryName(Value(p[0])) && !Hidden(p[1])
  }

  predicate AllPlaced(names: seq<string>, n: nat) {
    forall i {:trigger Placed(names[i], n)} :: 0 <= i < |names| ==> Placed(names[i], n)
  }

  /** The directories numbered from i on. */
  function Subdirectories(root: Path, i: nat, n: nat): set<Path> {
    if n == 1 then {} else set d | d in Below(n) && i <= d :: root + [DirectoryName(d)]
  }

  function NamePaths(root: Path, names: seq<string>): set<Path> {
    set s | s in names :: root + Components(s)
  }

  /** The test directory `root` with its directories, and `created` in it; everything else is as before. */
  function World(before: FileSystem, root: Path, i: nat, n: nat, created: set<Path>): FileSystem {
    FileSystem(before.directories + {root} + Subdirectories(root, i, n), before.files + created, root)
  }

  /** Before a test: no such file or directory yet. */
  ghost predicate Free(before: FileSystem, dirname: string) {
    Valid(before) && PlainName(dirname) && !Exists(before, before.cwd + [dirname])
  }

  lemma GeneratedNamesPlaced(c: Config)
    requires ValidConfig(c)
    ensures AllPlaced(AllNames(c), c.directories)
    ensures forall i :: 0 <= i < c.number && c.directories != 1 ==>
                          DirectoryNumber(AllNames(c)[i], c.directories) == DirectoryOf(c, i)
  {
    forall i | 0 <= i < c.number
      ensures Placed(AllNames(c)[i], c.directories)
      ensures c.directories != 1 ==> DirectoryNumber(AllNames(c)[i], c.directories) == DirectoryOf(c, i)
    {
      NamesAreVisible(c, i);
      DirectoryIsValid(c, i);
      if c.directories == 1 {
        OneComponent(BaseName(c, i));
        assert FullName(c, i) == BaseName(c, i);
      } else {
        TwoComponents(DirectoryName(DirectoryOf(c, i)), BaseName(c, i));
        ValueOfPadded(DirectoryOf(c, i), 5);
      }
    }
  }

  lemma DirectoryNamesDiffer(a: nat, b: nat)
    ensures DirectoryName(a) == DirectoryName(b) ==> a == b
    ensures '/' !in DirectoryName(a) && DirectoryName(a) != ".."
  {
    ValueOfPadded(a, 5);
    ValueOfPadded(b, 5);
    assert IsDigit(DirectoryName(a)[0]);
  }

  lemma PathsDiffer(root: Path, a: string, b: string)
    ensures root + Components(a) == root + Components(b) ==> a == b
  {
    if root + Components(a) == root + Components(b) {
      assert Components(a) == (root + Components(a))[|root|..] == Components(b);
      JoinComponents(a);
      JoinComponents(b);
    }
  }

  /** A placed name is new in the world, and its directory is there. */
  lemma PlaceIsReady(before: FileSystem, dirname: string, n: nat, created: set<Path>, name: string)
    requires Free(before, dirname) && Placed(name, n)
    ensures var root := before.cwd + [dirname]; var fs := World(before, root, 0, n, created);
            && Parent(Resolve(fs, name)) in fs.directories && Resolve(fs, name) !in fs.directories
            && Resolve(fs, name) !in before.files
  {
    var root := before.cwd + [dirname];
    var fs := World(before, root, 0, n, created);
    var p := Resolve(fs, name);
    assert root <= p;
    if Exists(before, p) {
      NothingBelow(before, root, p);
    }
    if n == 1 {
      assert Parent(p) == root;
    } else {
      assert Parent(p) == root + [DirectoryName(Value(Components(name)[0]))];
    }
  }

  lemma OneMorePath(root: Path, names: seq<string>, i: nat)
    requires i < |names|
    ensures NamePaths(root, names[..i + 1]) == NamePaths(root, names[..i]) + {root + Components(names[i])}
    ensures root + Components(names[i]) in NamePaths(root, names[..i]) <==> names[i] in names[..i]
  {
    assert names[..i + 1] == names[..i] + [names[i]];
    if root + Components(names[i]) in NamePaths(root, names[..i]) {
      var s :| s in names[..i] && root + Components(s) == root + Components(names[i]);
      PathsDiffer(root, s, names[i]);
    }
  }

  /** None of the first i names came before. */
  predicate NoneRepeated(names: seq<string>, i: nat)
    requires i <= |names|
  {
    i == 0 || (NoneRepeated(names, i - 1) && names[i - 1] !in names[..i - 1])
  }

  lemma {:induction false} NoneRepeatedMeans(names: seq<string>, i: nat)
    requires i <= |names|
    ensures NoneRepeated(names, i) <==> Distinct(names[..i])
    ensures names[..|names|] == names
  {
    if i > 0 {
      NoneRepeatedMeans(names, i - 1);
      DistinctLast(names[..i]);
      assert names[..i][..i - 1] == names[..i - 1];
    }
  }

  lemma RepeatedName(names: seq<string>, i: nat)
    requires i < |names|
    ensures names[i] in names[..i] ==> !Distinct(names)
  {
  }

  /** The directory numbered d, or the test directory itself when there is no other. */
  function Home(root: Path, n: nat, d: nat): Path {
    if n == 1 then root else root + [DirectoryName(d)]
  }

  lemma PlacedAtHome(root: Path, n: nat, name: string)
    requires Placed(name, n)
    ensures Parent(root + Components(name)) == Home(root, n, DirectoryNumber(name, n))
    ensures n >= 1 ==> DirectoryNumber(name, n) < n
  {
    var p := root + Components(name);
    if n == 1 {
      assert Parent(p) == root;
    } else {
      assert Parent(p) == root + [Components(name)[0]];
    }
  }

  /** The C strings that the pointers point to. */
  function NamesAt(text: string, pointers: seq<nat>): (names: seq<string>)
    requires forall i :: 0 <= i < |pointers| ==> pointers[i] <= |text|
    ensures |names| == |pointers|
    ensures forall i :: 0 <= i < |names| ==> names[i] == CString(text, pointers[i])
  {
    seq(|pointers|, i requires 0 <= i < |pointers| => CString(text, pointers[i]))
  }

  /** Creating the next file always works; making the next link works unless its name is taken. */
  lemma CreateStep(before: FileSystem, dirname: string, n: nat, names: seq<string>, i: nat)
    requires Free(before, dirname) && AllPlaced(names, n) && i < |names|
    ensures var root := before.cwd + [dirname];
            var fs := World(before, root, 0, n, NamePaths(root, names[..i]));
            var next := Some(World(before, root, 0, n, NamePaths(root, names[..i + 1])));
            var unlessTaken := if names[i] in names[..i] then None else next;
            && CreateFile(fs, names[i]) == next
            && (i > 0 ==> MakeLink(fs, names[0], names[i]) == MakeSymlink(fs, names[i]) == unlessTaken)
  {
    var root := before.cwd + [dirname];
    var created := NamePaths(root, names[..i]);
    var fs := World(before, root, 0, n, created);
    PlaceIsReady(before, dirname, n, created, names[i]);
    OneMorePath(root, names, i);
    var p := Resolve(fs, names[i]);
    assert before.files + created + {p} == before.files + NamePaths(root, names[..i + 1]);
    if i > 0 {
      assert names[0] == names[..i][0];
      assert Resolve(fs, names[0]) in created;
    }
  }

  function FirstSubdirectories(root: Path, i: nat): set<Path> {
    set d | d in Below(i) :: root + [DirectoryName(d)]
  }

  /** While create is making the directories. */
  function Furnished(before: FileSystem, root: Path, i: nat): FileSystem {
    FileSystem(before.directories + {root} + FirstSubdirectories(root, i), before.files, root)
  }

  lemma EnterTestDirectory(before: FileSystem, dirname: string)
    requires Valid(before) && PlainName(dirname)
    ensures MakeDirectory(before, dirname).Some? <==> Free(before, dirname)
    ensures var root := before.cwd + [dirname];
            Free(before, dirname) ==> ChangeDirectory(MakeDirectory(before, dirname).value, dirname)
                                      == Some(Furnished(before, root, 0))
  {
    OneComponent(dirname);
    assert Parent(before.cwd + [dirname]) == before.cwd;
    var root := before.cwd + [dirname];
    assert FirstSubdirectories(root, 0) == {};
    assert before.directories + {root} == before.directories + {root} + FirstSubdirectories(root, 0);
  }

  lemma FurnishStep(before: FileSystem, dirname: string, i: nat)
    requires Free(before, dirname)
    ensures var root := before.cwd + [dirname];
            MakeDirectory(Furnished(before, root, i), DirectoryName(i)) == Some(Furnished(before, root, i + 1))
  {
    var root := before.cwd + [dirname];
    var fs, p := Furnished(before, root, i), root + [DirectoryName(i)];
    DirectoryNamesDiffer(i, i);
    OneComponent(DirectoryName(i));
    assert Parent(p) == root;
    if Exists(before, p) {
      NothingBelow(before, root, p);
    }
    if p in FirstSubdirectories(root, i) {
      var d :| d in Below(i) && root + [DirectoryName(d)] == p;
      assert (root + [DirectoryName(d)])[|root|] == p[|root|];
      DirectoryNamesDiffer(d, i);
    }
    assert FirstSubdirectories(root, i + 1) == FirstSubdirectories(root, i) + {p};
    assert before.directories + {root} + FirstSubdirectories(root, i) + {p}
        == before.directories + {root} + FirstSubdirectories(root, i + 1);
  }

  /** open(2) of a numbered directory. */
  function HandleOf(fs: FileSystem, i: nat): (p: Path)
    ensures p == fs.cwd + [DirectoryName(i)]
  {
    DirectoryNamesDiffer(i, i);
    OneComponent(DirectoryName(i));
    Resolve(fs, DirectoryName(i))
  }

  ghost predicate HandlesUpTo(handles: seq<Path>, root: Path, i: nat) {
    i <= |handles| && forall d :: 0 <= d < i ==> handles[d] == root + [DirectoryName(d)]
  }

  lemma NextHandle(handles: seq<Path>, root: Path, i: nat, p: Path)
    requires HandlesUpTo(handles, root, i) && i < |handles| && p == root + [DirectoryName(i)]
    ensures HandlesUpTo(handles[i := p], root, i + 1)
  {
  }

  lemma FurnishedWorld(before: FileSystem, root: Path, n: nat)
    requires n >= 1
    ensures Furnished(before, root, if n > 1 then n else 0) == World(before, root, 0, n, {})
  {
    if n > 1 {
      assert FirstSubdirectories(root, n) == Subdirectories(root, 0, n);
    } else {
      assert FirstSubdirectories(root, 0) == Subdirectories(root, 0, 1);
    }
    assert before.files + {} == before.files;
  }

  /** The directories of the files, in the order of the names. */
  ghost predicate Homes(synced: seq<Path>, root: Path, names: seq<string>) {
    |synced| == |names| && HomesSoFar(synced, root, names)
  }

  ghost predicate HomesSoFar(synced: seq<Path>, root: Path, names: seq<string>) {
    |synced| <= |names| && forall i :: 0 <= i < |synced| ==> synced[i] == Parent(root + Components(names[i]))
  }

  lemma NamesShuffled(text: string, pointers: seq<nat>, draws: seq<nat>)
    requires ValidDraws(draws, |pointers|)
    requires forall i :: 0 <= i < |pointers| ==> pointers[i] <= |text|
    ensures var shuffled := Shuffle(pointers, draws, |pointers|);
            && (forall i :: 0 <= i < |shuffled| ==> shuffled[i] <= |text|)
            && NamesAt(text, shuffled) == Shuffle(NamesAt(text, pointers), draws, |pointers|)
  {
    var shuffled := Shuffle(pointers, draws, |pointers|);
    var names := NamesAt(text, pointers);
    forall i | 0 <= i < |shuffled|
      ensures 0 <= shuffled[i] <= |text| && CString(text, shuffled[i]) == Shuffle(names, draws, |pointers|)[i]
    {
      ShuffleMovesPositions(pointers, draws, |pointers|, i);
      ShuffleMovesPositions(names, draws, |pointers|, i);
    }
  }

  /** Directory numbers stay beside their names. */
  lemma NumbersShuffled(numbers: seq<nat>, names: seq<string>, draws: seq<nat>, n: nat)
    requires |numbers| == |names| && ValidDraws(draws, |names|)
    requires forall i :: 0 <= i < |names| ==> numbers[i] == DirectoryNumber(names[i], n)
    ensures forall i :: 0 <= i < |names| ==>
                          Shuffle(numbers, draws, |names|)[i] == DirectoryNumber(Shuffle(names, draws, |names|)[i], n)
  {
    forall i | 0 <= i < |names|
      ensures Shuffle(numbers, draws, |names|)[i] == DirectoryNumber(Shuffle(names, draws, |names|)[i], n)
    {
      ShuffleMovesPositions(numbers, draws, |names|, i);
      ShuffleMovesPositions(names, draws, |names|, i);
    }
  }

  lemma PermutedNames(root: Path, a: seq<string>, b: seq<string>, n: nat)
    requires multiset(a) == multiset(b) && AllPlaced(a, n)
    ensures (Distinct(a) <==> Distinct(b)) && NamePaths(root, a) == NamePaths(root, b) && AllPlaced(b, n)
  {
    PermutedDistinct(a, b);
    assert forall x :: x in a <==> x in Elements(a);
    assert forall x :: x in b <==> x in Elements(b);
    forall i | 0 <= i < |b| ensures Placed(b[i], n) {
      assert b[i] in b;
      var k :| 0 <= k < |a| && a[k] == b[i];
    }
  }

  /** What is left when the first i names have been removed. */
  function Left(root: Path, names: seq<string>, i: nat): set<Path>
    requires i <= |names|
  {
    NamePaths(root, names) - NamePaths(root, names[..i])
  }

  lemma LeftEnds(root: Path, names: seq<string>)
    ensures Left(root, names, 0) == NamePaths(root, names) && Left(root, names, |names|) == {}
  {
    assert names[..|names|] == names;
  }

  lemma NextHome(synced: seq<Path>, root: Path, names: seq<string>, home: Path)
    requires |synced| < |names| && HomesSoFar(synced, root, names)
    requires home == Parent(root + Components(names[|synced|]))
    ensures HomesSoFar(synced + [home], root, names)
  {
  }

  /** Removing the next file works unless its name came before. */
  lemma UnlinkStep(before: FileSystem, dirname: string, n: nat, names: seq<string>, i: nat)
    requires Free(before, dirname) && AllPlaced(names, n) && i < |names|
    ensures var root := before.cwd + [dirname];
            var fs := World(before, root, 0, n, Left(root, names, i));
            Unlink(fs, names[i]) == if names[i] in names[..i] then None else
                                      Some(World(before, root, 0, n, Left(root, names, i + 1)))
  {
    var root := before.cwd + [dirname];
    var all, done := NamePaths(root, names), NamePaths(root, names[..i]);
    var p := root + Components(names[i]);
    PlaceIsReady(before, dirname, n, all - done, names[i]);
    OneMorePath(root, names, i);
    assert p in all;
    assert before.files + (all - done) - {p} == before.files + (all - NamePaths(root, names[..i + 1]));
  }

  /** When delete_random has removed the files before i. */
  function Unlinked(before: FileSystem, dirname: string, n: nat, names: seq<string>, i: nat): FileSystem
    requires i <= |names|
  {
    World(before, before.cwd + [dirname], 0, n, Left(before.cwd + [dirname], names, i))
  }

  lemma UnlinkingStep(before: FileSystem, dirname: string, n: nat, names: seq<string>, i: nat)
    requires Free(before, dirname) && AllPlaced(names, n) && i < |names| && NoneRepeated(names, i)
    ensures Unlink(Unlinked(before, dirname, n, names, i), names[i]) == None ==> !Distinct(names)
    ensures Unlink(Unlinked(before, dirname, n, names, i), names[i]) != None ==>
              Unlink(Unlinked(before, dirname, n, names, i), names[i])
              == Some(Unlinked(before, dirname, n, names, i + 1)) && NoneRepeated(names, i + 1)
  {
    UnlinkStep(before, dirname, n, names, i);
    RepeatedName(names, i);
  }

  lemma UnlinkingEnds(before: FileSystem, dirname: string, n: nat, names: seq<string>)
    ensures var root := before.cwd + [dirname];
            && Unlinked(before, dirname, n, names, 0) == World(before, root, 0, n, NamePaths(root, names))
            && Unlinked(before, dirname, n, names, |names|) == World(before, root, 0, n, {})
    ensures names[..|names|] == names
  {
    LeftEnds(before.cwd + [dirname], names);
  }

  /** The directory numbered i can be removed once no file is left in it. */
  lemma RemoveStep(before: FileSystem, dirname: string, i: nat, n: nat, created: set<Path>)
    requires Free(before, dirname) && i < n && n != 1
    requires forall p :: p in created ==> Parent(p) != before.cwd + [dirname] + [DirectoryName(i)]
    ensures var root := before.cwd + [dirname];
            RemoveDirectory(World(before, root, i, n, created), DirectoryName(i))
            == Some(World(before, root, i + 1, n, created))
  {
    var root := before.cwd + [dirname];
    var fs, d := World(before, root, i, n, created), root + [DirectoryName(i)];
    DirectoryNamesDiffer(i, i);
    OneComponent(DirectoryName(i));
    assert d in Subdirectories(root, i, n);
    NothingLeftIn(before, dirname, i, n, created);
    SubdirectoriesStep(root, i, n);
    if d in before.directories {
      NothingBelow(before, root, d);
    }
    assert before.directories + {root} + Subdirectories(root, i, n) - {d}
        == before.directories + {root} + Subdirectories(root, i + 1, n);
  }

  lemma NothingLeftIn(before: FileSystem, dirname: string, i: nat, n: nat, created: set<Path>)
    requires Free(before, dirname) && i < n && n != 1
    requires forall p :: p in created ==> Parent(p) != before.cwd + [dirname] + [DirectoryName(i)]
    ensures var root := before.cwd + [dirname];
            Entries(World(before, root, i, n, created), root + [DirectoryName(i)]) == {}
  {
    var root := before.cwd + [dirname];
    var fs, d := World(before, root, i, n, created), root + [DirectoryName(i)];
    forall p | p in fs.directories + fs.files && p !in created ensures !IsIn(p, d) {
      NotTwoBelow(before, root, i, n, p, d);
    }
  }

  /** Apart from the created files nothing is two levels below the test directory. */
  lemma NotTwoBelow(before: FileSystem, root: Path, i: nat, n: nat, p: Path, d: Path)
    requires Valid(before) && !Exists(before, root) && root <= d && |d| == |root| + 1
    requires Exists(before, p) || p == root || p in Subdirectories(root, i, n)
    ensures !IsIn(p, d)
  {
    if IsIn(p, d) {
      assert |p| == |root| + 2 && root <= p;
      if Exists(before, p) {
        NothingBelow(before, root, p);
      }
    }
  }

  lemma SubdirectoriesStep(root: Path, i: nat, n: nat)
    requires i < n && n != 1
    ensures var d := root + [DirectoryName(i)];
            Subdirectories(root, i, n) == Subdirectories(root, i + 1, n) + {d} && d !in Subdirectories(root, i + 1, n)
  {
    var d := root + [DirectoryName(i)];
    if d in Subdirectories(root, i + 1, n) {
      var e :| e in Below(n) && i + 1 <= e && root + [DirectoryName(e)] == d;
      assert (root + [DirectoryName(e)])[|root|] == d[|root|];
      DirectoryNamesDiffer(e, i);
    }
  }

  /** When everything else is gone the test directory can be removed, and the file system is as it was. */
  lemma LeaveTestDirectory(before: FileSystem, dirname: string, n: nat)
    requires Free(before, dirname) && n >= 1
    ensures var root := before.cwd + [dirname];
            var last := World(before, root, if n == 1 then 0 else n, n, {});
            RemoveDirectory(last.(cwd := Parent(root)), dirname) == Some(before)
  {
    var root := before.cwd + [dirname];
    var last := World(before, root, if n == 1 then 0 else n, n, {});
    assert Parent(root) == before.cwd;
    OneComponent(dirname);
    var left := last.(cwd := Parent(root));
    assert Subdirectories(root, if n == 1 then 0 else n, n) == {};
    forall p | p in left.directories + left.files && p != [] ensures Parent(p) != root {
      assert p == root || Exists(before, p);
    }
    assert Entries(left, root) == {};
    assert left.directories - {root} == before.directories;
    assert before.files + {} == before.files;
  }

  /** The files that the loop of delete_sequential removes from the working directory. */
  predicate VisibleIn(p: Path, d: Path) {
    IsIn(p, d) && !Hidden(p[|p| - 1])
  }

  function VisibleFiles(fs: FileSystem): set<Path> {
    set p | p in fs.files && VisibleIn(p, fs.cwd)
  }

  ghost predicate AllHereFiles(fs: FileSystem) {
    forall e :: e in Listing(fs) && !Hidden(e) ==> fs.cwd + [e] in fs.files
  }

  /** The files `gone` have been removed; `remaining` is still to be listed. */
  ghost predicate Emptying(fs0: FileSystem, fs: FileSystem, remaining: set<string>, gone: set<Path>) {
    && remaining <= Listing(fs0) && fs == fs0.(files := fs0.files - gone) && gone <= VisibleFiles(fs0)
    && forall e :: e in Listing(fs0) && !Hidden(e) ==> (fs0.cwd + [e] in gone <==> e !in remaining)
  }

  lemma EmptyingHidden(fs0: FileSystem, fs: FileSystem, remaining: set<string>, gone: set<Path>, entry: string)
    requires Hidden(entry) && Emptying(fs0, fs, remaining, gone)
    ensures Emptying(fs0, fs, remaining - {entry}, gone)
  {
    forall e | e in Listing(fs0) && !Hidden(e) ensures fs0.cwd + [e] in gone <==> e !in remaining - {entry} {
      assert e in remaining - {entry} <==> e in remaining;
    }
  }

  lemma EmptyingStep(fs0: FileSystem, fs: FileSystem, remaining: set<string>, gone: set<Path>, entry: string)
    requires entry in remaining && !Hidden(entry) && '/' !in entry && Emptying(fs0, fs, remaining, gone)
    ensures Unlink(fs, entry).None? <==> fs0.cwd + [entry] !in fs0.files
    ensures Unlink(fs, entry).Some? ==>
              Emptying(fs0, Unlink(fs, entry).value, remaining - {entry}, gone + {fs0.cwd + [entry]})
              && |Unlink(fs, entry).value.files| + 1 == |fs.files|
  {
    OneComponent(entry);
    var p := fs0.cwd + [entry];
    assert Resolve(fs, entry) == p && p !in gone;
    if p in fs0.files {
      assert Parent(p) == fs0.cwd;
      assert fs0.files - gone - {p} == fs0.files - (gone + {p});
      forall e | e in Listing(fs0) && !Hidden(e)
        ensures fs0.cwd + [e] in gone + {p} <==> e !in remaining - {entry}
      {
        if fs0.cwd + [e] == p {
          assert e == p[|p| - 1] == entry;
        }
      }
    }
  }

  lemma EmptyingEnds(fs0: FileSystem, fs: FileSystem, gone: set<Path>)
    requires Emptying(fs0, fs, {}, gone)
    ensures gone == VisibleFiles(fs0) && AllHereFiles(fs0)
  {
    forall p | p in VisibleFiles(fs0) ensures p in gone {
      VisibleIsListed(fs0, p);
    }
  }

  /** Reading the directory without changing it: the files `seen` have been met, and lead to files; `remaining` is still
      to be listed. */
  ghost predicate Scanning(fs: FileSystem, links: Option<Links>, remaining: set<string>, seen: set<Path>) {
    && remaining <= Listing(fs) && seen <= VisibleFiles(fs)
    && (forall p :: p in seen ==> Followed(fs.files, links, p))
    && forall e :: e in Listing(fs) && !Hidden(e) ==> (fs.cwd + [e] in seen <==> e !in remaining)
  }

  lemma ScanningHidden(fs: FileSystem, links: Option<Links>, remaining: set<string>, seen: set<Path>, entry: string)
    requires Hidden(entry) && Scanning(fs, links, remaining, seen)
    ensures Scanning(fs, links, remaining - {entry}, seen)
  {
    forall e | e in Listing(fs) && !Hidden(e) ensures fs.cwd + [e] in seen <==> e !in remaining - {entry} {
      assert e in remaining - {entry} <==> e in remaining;
    }
  }

  lemma ScanningStep(fs: FileSystem, links: Option<Links>, remaining: set<string>, seen: set<Path>, entry: string)
    requires entry in remaining && !Hidden(entry) && Scanning(fs, links, remaining, seen)
    requires Followed(fs.files, links, fs.cwd + [entry])
    ensures |seen + {fs.cwd + [entry]}| == |seen| + 1
    ensures Scanning(fs, links, remaining - {entry}, seen + {fs.cwd + [entry]})
  {
    var p := fs.cwd + [entry];
    assert Parent(p) == fs.cwd && p[|p| - 1] == entry;
    forall e | e in Listing(fs) && !Hidden(e) ensures fs.cwd + [e] in seen + {p} <==> e !in remaining - {entry} {
      if fs.cwd + [e] == p {
        assert e == p[|p| - 1];
      }
    }
  }

  lemma ScanningEnds(fs: FileSystem, links: Option<Links>, seen: set<Path>)
    requires Scanning(fs, links, {}, seen)
    ensures seen == VisibleFiles(fs) && AllHereFollowed(fs, links)
  {
    forall p | p in VisibleFiles(fs) ensures p in seen {
      VisibleIsListed(fs, p);
    }
  }

  lemma VisibleIsListed(fs: FileSystem, p: Path)
    requires p in VisibleFiles(fs)
    ensures var e := if p == [] then "" else p[|p| - 1];
            p == fs.cwd + [e] && e in Listing(fs) && !Hidden(e)
  {
  }

  /** The number of the directory that a created file is in. */
  function Where(root: Path, n: nat, p: Path): nat {
    if n == 1 || |p| <= |root| then 0 else Value(p[|root|])
  }

  /** The created files in directory i. */
  function CreatedIn(root: Path, n: nat, created: set<Path>, i: nat): set<Path> {
    set p | p in created && Where(root, n, p) == i
  }

  /** The created files in directory i and those after it. */
  function Remaining(root: Path, n: nat, created: set<Path>, i: nat): set<Path> {
    set p | p in created && Where(root, n, p) >= i
  }

  lemma RemainingEnds(root: Path, names: seq<string>, n: nat)
    requires AllPlaced(names, n) && n >= 1
    ensures var created := NamePaths(root, names);
            Remaining(root, n, created, 0) == created && Remaining(root, n, created, n) == {}
  {
    var created := NamePaths(root, names);
    forall p | p in created ensures Where(root, n, p) < n {
      CreatedPath(root, n, names, p);
    }
  }

  /** When delete_sequential has come to directory i. */
  function Deleted(before: FileSystem, dirname: string, n: nat, names: seq<string>, i: nat): FileSystem {
    var root := before.cwd + [dirname];
    World(before, root, if n == 1 then 0 else i, n, Remaining(root, n, NamePaths(root, names), i))
  }

  lemma DeletingStarts(before: FileSystem, dirname: string, n: nat, names: seq<string>)
    requires AllPlaced(names, n) && n >= 1
    ensures var root := before.cwd + [dirname];
            Deleted(before, dirname, n, names, 0) == World(before, root, 0, n, NamePaths(root, names))
  {
    RemainingEnds(before.cwd + [dirname], names, n);
  }

  lemma DeletingEnds(before: FileSystem, dirname: string, n: nat, names: seq<string>)
    requires Free(before, dirname) && AllPlaced(names, n) && n >= 1
    ensures var fs := Deleted(before, dirname, n, names, n);
            fs.files == before.files && RemoveDirectory(fs.(cwd := Parent(fs.cwd)), dirname) == Some(before)
  {
    RemainingEnds(before.cwd + [dirname], names, n);
    LeaveTestDirectory(before, dirname, n);
  }

  lemma DistinctLast<T>(s: seq<T>)
    requires s != []
    ensures Distinct(s) <==> Distinct(s[..|s| - 1]) && s[|s| - 1] !in s[..|s| - 1]
  {
  }

  lemma {:induction false} PathsCount(root: Path, names: seq<string>)
    ensures |NamePaths(root, names)| <= |names|
    ensures |NamePaths(root, names)| == |names| <==> Distinct(names)
  {
    if names == [] {
      assert NamePaths(root, names) == {};
    } else {
      var i := |names| - 1;
      PathsCount(root, names[..i]);
      OneMorePath(root, names, i);
      DistinctLast(names);
      assert names[..i + 1] == names;
    }
  }

  /** The files that create adds are as many as the names exactly when the names differ. */
  lemma CreatedCount(before: FileSystem, dirname: string, names: seq<string>)
    requires Free(before, dirname)
    ensures var created := NamePaths(before.cwd + [dirname], names);
            |before.files + created| - |before.files| == |names| <==> Distinct(names)
  {
    var created := NamePaths(before.cwd + [dirname], names);
    PathsCount(before.cwd + [dirname], names);
    forall p | p in created ensures p !in before.files {
      NotBefore(before, dirname, names, p);
    }
    assert |before.files + created| == |before.files| + |created|;
  }

  lemma {:induction false} ComponentsHaveNoSlash(s: string)
    ensures forall k :: 0 <= k < |Components(s)| ==> '/' !in Components(s)[k]
  {
    if s != "" {
      ComponentsHaveNoSlash(s[1..]);
    }
  }

  /** A created file is in the directory that `Where` tells, under a name that is not hidden. */
  lemma CreatedPath(root: Path, n: nat, names: seq<string>, p: Path)
    requires AllPlaced(names, n) && p in NamePaths(root, names) && n >= 1
    ensures p != [] && Parent(p) == Home(root, n, Where(root, n, p)) && Where(root, n, p) < n
    ensures !Hidden(p[|p| - 1]) && '/' !in p[|p| - 1]
  {
    var s :| s in names && p == root + Components(s);
    assert Placed(s, n);
    PlacedAtHome(root, n, s);
    ComponentsHaveNoSlash(s);
  }

  /** What is directly in directory i while delete_sequential is at it. */
  lemma HomeEntry(before: FileSystem, dirname: string, from: nat, i: nat, n: nat, names: seq<string>, p: Path)
    requires Free(before, dirname) && AllPlaced(names, n) && i < n && p != []
    requires var world := Deleted(before, dirname, n, names, from);
             Parent(p) == Home(before.cwd + [dirname], n, i) && p in world.directories + world.files
    ensures p in Remaining(before.cwd + [dirname], n, NamePaths(before.cwd + [dirname], names), from)
  {
    var root := before.cwd + [dirname];
    assert root <= Parent(p) <= p;
    if Exists(before, p) {
      NothingBelow(before, root, p);
    }
  }

  lemma HomesDiffer(root: Path, n: nat, i: nat, k: nat)
    requires Home(root, n, i) == Home(root, n, k) && n != 1
    ensures i == k
  {
    assert Home(root, n, i)[|root|] == Home(root, n, k)[|root|];
    DirectoryNamesDiffer(i, k);
  }

  /** The file system with directory i as its working directory, when the directories before `from` have been deleted. */
  function AtHome(before: FileSystem, dirname: string, from: nat, i: nat, n: nat, names: seq<string>): FileSystem {
    Deleted(before, dirname, n, names, from).(cwd := Home(before.cwd + [dirname], n, i))
  }

  /** Everything that is found in directory i, and is not hidden, is a file. */
  lemma HomeListing(before: FileSystem, dirname: string, from: nat, i: nat, n: nat, names: seq<string>)
    requires Free(before, dirname) && AllPlaced(names, n) && i < n
    ensures var fs := AtHome(before, dirname, from, i, n, names);
            && (forall e :: e in Listing(fs) ==> '/' !in e)
            && AllHereFiles(fs)
  {
    var fs := AtHome(before, dirname, from, i, n, names);
    forall e | e in Listing(fs) ensures '/' !in e && (!Hidden(e) ==> fs.cwd + [e] in fs.files) {
      if e != "." && e != ".." {
        ListedFile(before, dirname, from, i, n, names, e);
      }
    }
  }

  lemma ListedFile(before: FileSystem, dirname: string, from: nat, i: nat, n: nat, names: seq<string>, e: string)
    requires Free(before, dirname) && AllPlaced(names, n) && i < n
    requires var fs := AtHome(before, dirname, from, i, n, names); fs.cwd + [e] in fs.directories + fs.files
    ensures var fs := AtHome(before, dirname, from, i, n, names); '/' !in e && fs.cwd + [e] in fs.files
  {
    var p := AtHome(before, dirname, from, i, n, names).cwd + [e];
    assert Parent(p) == Home(before.cwd + [dirname], n, i);
    HomeEntry(before, dirname, from, i, n, names, p);
    CreatedPath(before.cwd + [dirname], n, names, p);
    assert p[|p| - 1] == e;
  }

  lemma HomeIsThere(before: FileSystem, dirname: string, from: nat, i: nat, n: nat, names: seq<string>)
    requires from <= i < n
    ensures var fs := AtHome(before, dirname, from, i, n, names); fs.cwd in fs.directories
  {
    if n != 1 {
      assert Home(before.cwd + [dirname], n, i) in Subdirectories(before.cwd + [dirname], from, n);
    }
  }

  /** The files found in directory i are those that were created there. */
  lemma VisibleAtHome(before: FileSystem, dirname: string, from: nat, i: nat, n: nat, names: seq<string>)
    requires Free(before, dirname) && AllPlaced(names, n) && from <= i < n
    ensures var root := before.cwd + [dirname];
            var created := NamePaths(root, names);
            VisibleFiles(AtHome(before, dirname, from, i, n, names)) == CreatedIn(root, n, created, i)
  {
    var root := before.cwd + [dirname];
    var created := NamePaths(root, names);
    var fs := AtHome(before, dirname, from, i, n, names);
    forall p | p in VisibleFiles(fs) ensures p in created && Where(root, n, p) == i {
      HomeEntry(before, dirname, from, i, n, names, p);
      AtItsHome(root, i, n, names, p);
    }
    forall p | p in created && Where(root, n, p) == i ensures p in VisibleFiles(fs) {
      CreatedPath(root, n, names, p);
    }
  }

  lemma AtItsHome(root: Path, i: nat, n: nat, names: seq<string>, p: Path)
    requires AllPlaced(names, n) && i < n && p in NamePaths(root, names)
    ensures Where(root, n, p) == i <==> Parent(p) == Home(root, n, i)
  {
    CreatedPath(root, n, names, p);
    if Parent(p) == Home(root, n, i) && n != 1 {
      HomesDiffer(root, n, i, Where(root, n, p));
    }
  }

  /** Once they are gone the directory is empty. */
  lemma HomeFiles(before: FileSystem, dirname: string, i: nat, n: nat, names: seq<string>)
    requires Free(before, dirname) && AllPlaced(names, n) && i < n
    ensures var root := before.cwd + [dirname];
            var next := Remaining(root, n, NamePaths(root, names), i + 1);
            var fs := AtHome(before, dirname, i, i, n, names);
            && fs.files - VisibleFiles(fs) == before.files + next
            && (n != 1 ==> forall p :: p in next ==> Parent(p) != Home(root, n, i))
  {
    var root := before.cwd + [dirname];
    var created := NamePaths(root, names);
    var now, next := Remaining(root, n, created, i), Remaining(root, n, created, i + 1);
    VisibleAtHome(before, dirname, i, i, n, names);
    forall p | p in created ensures p !in before.files && (Where(root, n, p) == i <==> Parent(p) == Home(root, n, i)) {
      NotBefore(before, dirname, names, p);
      AtItsHome(root, i, n, names, p);
    }
    assert next <= now;
  }

  lemma NotBefore(before: FileSystem, dirname: string, names: seq<string>, p: Path)
    requires Free(before, dirname) && p in NamePaths(before.cwd + [dirname], names)
    ensures p !in before.files
  {
    if p in before.files {
      NothingBelow(before, before.cwd + [dirname], p);
    }
  }

  lemma NamesReadBack(c: Config, text: string, pointers: seq<nat>)
    requires ValidConfig(c) && Layout(AllNames(c)) <= text && pointers == Pointers(AllNames(c))
    ensures forall i :: 0 <= i < |pointers| ==> pointers[i] <= |text|
    ensures NamesAt(text, pointers) == AllNames(c)
  {
    var names := AllNames(c);
    forall i | 0 <= i < |pointers| ensures pointers[i] <= |text| && CString(text, pointers[i]) == names[i] {
      NamesAreVisible(c, i);
      PointerReadsName(names, i, text);
    }
  }

  lemma DirectoriesMatch(c: Config, numbers: seq<nat>)
    requires ValidConfig(c) && c.number <= |numbers| && numbers[..c.number] == Directories(c, c.number)
    ensures forall i :: 0 <= i < c.number ==> numbers[i] == DirectoryNumber(AllNames(c)[i], c.directories)
  {
    GeneratedNamesPlaced(c);
    forall i | 0 <= i < c.number ensures numbers[i] == DirectoryNumber(AllNames(c)[i], c.directories) {
      assert numbers[i] == numbers[..c.number][i];
      DirectoryAt(c, c.number, i);
      if c.directories == 1 {
        DirectoryIsValid(c, i);
      }
    }
  }

  // ----- symbolic links -----

  /** What create leaves when it makes symbolic links: every file but the one at `original` contains the name `target`. */
  datatype Links = Links(original: Path, target: string)

  function LinksOf(root: Path, names: seq<string>, max: int): Option<Links> {
    if max < -1 && |names| > 0 then Some(Links(root + Components(names[0]), names[0])) else None
  }

  /** stat(2) follows a symbolic link from the directory that the link is in. */
  predicate Followed(files: set<Path>, links: Option<Links>, p: Path) {
    p in files
    && (links.Some? && p != links.value.original ==> Parent(p) + Components(links.value.target) in files)
  }

  ghost predicate LinksTo(links: Option<Links>, root: Path, names: seq<string>) {
    links.Some? ==> links.value.target in names && links.value.original == root + Components(links.value.target)
  }

  ghost predicate AllHereFollowed(fs: FileSystem, links: Option<Links>) {
    forall e {:trigger Hidden(e)} :: e in Listing(fs) && !Hidden(e) ==> Followed(fs.files, links, fs.cwd + [e])
  }

  /** Links lead to the file when there is one directory; from a numbered directory they lead nowhere. */
  lemma LinkFollowed(before: FileSystem, dirname: string, n: nat, names: seq<string>, links: Option<Links>, p: Path)
    requires Free(before, dirname) && AllPlaced(names, n) && n >= 1
    requires LinksTo(links, before.cwd + [dirname], names) && p in NamePaths(before.cwd + [dirname], names)
    ensures Followed(before.files + NamePaths(before.cwd + [dirname], names), links, p)
            <==> links.None? || n == 1 || p == links.value.original
  {
    var root := before.cwd + [dirname];
    var created := NamePaths(root, names);
    CreatedPath(root, n, names, p);
    if links.Some? && p != links.value.original {
      var comps := Components(links.value.target);
      var q := Parent(p) + comps;
      var k :| 0 <= k < |names| && names[k] == links.value.target;
      assert Placed(names[k], n);
      assert links.value.original in created;
      if n != 1 {
        assert |q| == |root| + 3 && root <= q;
        if q in created {
          CreatedPath(root, n, names, q);
        } else if q in before.files {
          NothingBelow(before, root, q);
        }
      }
    }
  }

  /** Whether stat works on all the files. */
  predicate LinksWork(links: Option<Links>, n: nat, number: nat) {
    links.None? || n == 1 || number == 1
  }

  lemma AllFollowed(before: FileSystem, dirname: string, n: nat, names: seq<string>, links: Option<Links>)
    requires Free(before, dirname) && AllPlaced(names, n) && n >= 1 && LinksTo(links, before.cwd + [dirname], names)
    ensures var created := NamePaths(before.cwd + [dirname], names);
            (forall p :: p in created ==> Followed(before.files + created, links, p))
            <==> LinksWork(links, n, |created|)
  {
    var created := NamePaths(before.cwd + [dirname], names);
    forall p | p in created
      ensures Followed(before.files + created, links, p) <==> links.None? || n == 1 || p == links.value.original
    {
      LinkFollowed(before, dirname, n, names, links, p);
    }
    if links.Some? {
      assert links.value.original in created;
      OnlyOne(created, links.value.original);
    }
  }

  lemma OnlyOne<T>(s: set<T>, x: T)
    requires x in s
    ensures |s| == 1 <==> forall y :: y in s ==> y == x
  {
    var rest := s - {x};
    assert s == rest + {x} && |rest| == |s| - 1;
    if rest != {} {
      var y :| y in rest;
      assert y in s && y != x;
    }
  }

  /** stat finds what was created in directory i. */
  ghost predicate FoundIn(before: FileSystem, dirname: string, names: seq<string>, links: Option<Links>, n: nat, i: nat) {
    var created := NamePaths(before.cwd + [dirname], names);
    forall p {:trigger Followed(before.files + created, links, p)} ::
      p in CreatedIn(before.cwd + [dirname], n, created, i) ==> Followed(before.files + created, links, p)
  }

  /** stat finds what was created in the directories before i. */
  ghost predicate AllFound(before: FileSystem, dirname: string, names: seq<string>, links: Option<Links>, n: nat, i: nat) {
    i == 0 || (AllFound(before, dirname, names, links, n, i - 1) && FoundIn(before, dirname, names, links, n, i - 1))
  }

  lemma {:induction false} AllFoundMeans(before: FileSystem, dirname: string, names: seq<string>, links: Option<Links>,
                                         n: nat, i: nat)
    ensures var root := before.cwd + [dirname];
            var created := NamePaths(root, names);
            AllFound(before, dirname, names, links, n, i)
            <==> forall p :: p in created && Where(root, n, p) < i ==> Followed(before.files + created, links, p)
  {
    if i > 0 {
      AllFoundMeans(before, dirname, names, links, n, i - 1);
      var root := before.cwd + [dirname];
      var created := NamePaths(root, names);
      if AllFound(before, dirname, names, links, n, i) {
        forall p | p in created && Where(root, n, p) < i ensures Followed(before.files + created, links, p) {
          if Where(root, n, p) == i - 1 {
            assert p in CreatedIn(root, n, created, i - 1);
          }
        }
      }
    }
  }

  /** How many files were created in the directories before i. */
  function CountTo(before: FileSystem, dirname: string, names: seq<string>, n: nat, i: nat): nat {
    if i == 0 then 0 else
      CountTo(before, dirname, names, n, i - 1)
      + |CreatedIn(before.cwd + [dirname], n, NamePaths(before.cwd + [dirname], names), i - 1)|
  }

  lemma {:induction false} CountAll(before: FileSystem, dirname: string, names: seq<string>, n: nat, i: nat)
    ensures var created := NamePaths(before.cwd + [dirname], names);
            CountTo(before, dirname, names, n, i) + |Remaining(before.cwd + [dirname], n, created, i)| == |created|
  {
    var root := before.cwd + [dirname];
    var created := NamePaths(root, names);
    if i == 0 {
      assert Remaining(root, n, created, 0) == created;
    } else {
      CountAll(before, dirname, names, n, i - 1);
      RemainingSplits(root, n, created, i - 1);
    }
  }

  lemma RemainingSplits(root: Path, n: nat, created: set<Path>, i: nat)
    ensures |Remaining(root, n, created, i)| == |CreatedIn(root, n, created, i)| + |Remaining(root, n, created, i + 1)|
  {
    assert Remaining(root, n, created, i) == CreatedIn(root, n, created, i) + Remaining(root, n, created, i + 1);
  }

  /** What is listed in directory i and not hidden is what was created there. */
  lemma EntryIsCreated(before: FileSystem, dirname: string, i: nat, n: nat, names: seq<string>, e: string)
    requires Free(before, dirname) && AllPlaced(names, n) && i < n && !Hidden(e)
    requires e in Listing(AtHome(before, dirname, 0, i, n, names))
    ensures var root := before.cwd + [dirname];
            var p := Home(root, n, i) + [e];
            p in NamePaths(root, names) && Where(root, n, p) == i
  {
    var root := before.cwd + [dirname];
    var p := Home(root, n, i) + [e];
    assert Parent(p) == Home(root, n, i);
    HomeEntry(before, dirname, 0, i, n, names, p);
    AtItsHome(root, i, n, names, p);
  }

  lemma CreatedIsEntry(before: FileSystem, dirname: string, i: nat, n: nat, names: seq<string>, p: Path)
    requires AllPlaced(names, n) && i < n
    requires p in CreatedIn(before.cwd + [dirname], n, NamePaths(before.cwd + [dirname], names), i)
    ensures var e := if p == [] then "" else p[|p| - 1];
            p == Home(before.cwd + [dirname], n, i) + [e] && !Hidden(e)
  {
    CreatedPath(before.cwd + [dirname], n, names, p);
  }

  lemma FullWorldFiles(before: FileSystem, dirname: string, i: nat, n: nat, names: seq<string>)
    requires AllPlaced(names, n) && n >= 1
    ensures AtHome(before, dirname, 0, i, n, names).files == before.files + NamePaths(before.cwd + [dirname], names)
  {
    RemainingEnds(before.cwd + [dirname], names, n);
  }

  /** All that is listed in directory i is found exactly when all that was created there is. */
  lemma FoundHere(before: FileSystem, dirname: string, i: nat, n: nat, names: seq<string>, links: Option<Links>)
    requires Free(before, dirname) && AllPlaced(names, n) && i < n
    ensures AllHereFollowed(AtHome(before, dirname, 0, i, n, names), links)
            <==> FoundIn(before, dirname, names, links, n, i)
  {
    var root := before.cwd + [dirname];
    var created := NamePaths(root, names);
    var fs := AtHome(before, dirname, 0, i, n, names);
    FullWorldFiles(before, dirname, i, n, names);
    if AllHereFollowed(fs, links) {
      forall p | p in CreatedIn(root, n, created, i) ensures Followed(before.files + created, links, p) {
        CreatedIsEntry(before, dirname, i, n, names, p);
        assert p[|p| - 1] in Listing(fs);
      }
    } else {
      var e :| e in Listing(fs) && !Hidden(e) && !Followed(fs.files, links, fs.cwd + [e]);
      EntryIsCreated(before, dirname, i, n, names, e);
      assert fs.cwd + [e] in CreatedIn(root, n, created, i);
    }
  }

  // ----- looking through the directories -----

  function InDirectory(fs: FileSystem, n: nat, i: nat): FileSystem {
    fs.(cwd := Home(fs.cwd, n, i))
  }

  /** Each of the directories exists and can be listed. */
  ghost predicate Visitable(fs: FileSystem, n: nat) {
    forall i {:trigger InDirectory(fs, n, i)} :: 0 <= i < n ==>
      InDirectory(fs, n, i).cwd in fs.directories && forall e :: e in Listing(InDirectory(fs, n, i)) ==> '/' !in e
  }

  /** What is in the directories before i and not hidden leads to files. */
  ghost predicate AllSeen(fs: FileSystem, links: Option<Links>, n: nat, i: nat) {
    i == 0 || (AllSeen(fs, links, n, i - 1) && AllHereFollowed(InDirectory(fs, n, i - 1), links))
  }

  /** How many files the directories before i have. */
  function SeenTo(fs: FileSystem, n: nat, i: nat): nat {
    if i == 0 then 0 else SeenTo(fs, n, i - 1) + |VisibleFiles(InDirectory(fs, n, i - 1))|
  }

  lemma {:induction false} SeenBefore(fs: FileSystem, links: Option<Links>, n: nat, i: nat, later: nat)
    requires i <= later && AllSeen(fs, links, n, later)
    ensures AllSeen(fs, links, n, i)
  {
    if i < later {
      SeenBefore(fs, links, n, i, later - 1);
    }
  }

  lemma MissedForGood(fs: FileSystem, links: Option<Links>, n: nat, i: nat)
    requires i < n && !AllHereFollowed(InDirectory(fs, n, i), links)
    ensures !AllSeen(fs, links, n, n)
  {
    if AllSeen(fs, links, n, n) {
      SeenBefore(fs, links, n, i + 1, n);
    }
  }

  lemma WorldIsVisitable(before: FileSystem, dirname: string, n: nat, names: seq<string>)
    requires Free(before, dirname) && AllPlaced(names, n) && n >= 1
    ensures var root := before.cwd + [dirname];
            Visitable(World(before, root, 0, n, NamePaths(root, names)), n)
  {
    DeletingStarts(before, dirname, n, names);
    var fs := Deleted(before, dirname, n, names, 0);
    forall i | 0 <= i < n
      ensures InDirectory(fs, n, i).cwd in fs.directories
      ensures forall e :: e in Listing(InDirectory(fs, n, i)) ==> '/' !in e
    {
      HomeIsThere(before, dirname, 0, i, n, names);
      HomeListing(before, dirname, 0, i, n, names);
    }
  }

  /** What is seen in directory d is what was created there. */
  ghost predicate SeenIn(before: FileSystem, dirname: string, n: nat, names: seq<string>, links: Option<Links>,
                         fs: FileSystem, d: nat) {
    && (AllHereFollowed(InDirectory(fs, n, d), links) <==> FoundIn(before, dirname, names, links, n, d))
    && VisibleFiles(InDirectory(fs, n, d)) == CreatedIn(before.cwd + [dirname], n, NamePaths(before.cwd + [dirname], names), d)
  }

  lemma SeenHere(before: FileSystem, dirname: string, n: nat, names: seq<string>, links: Option<Links>, d: nat)
    requires Free(before, dirname) && AllPlaced(names, n) && d < n
    ensures SeenIn(before, dirname, n, names, links, Deleted(before, dirname, n, names, 0), d)
  {
    FoundHere(before, dirname, d, n, names, links);
    VisibleAtHome(before, dirname, 0, d, n, names);
  }

  lemma {:induction false} SeenIsFound(before: FileSystem, dirname: string, n: nat, names: seq<string>,
                                       links: Option<Links>, fs: FileSystem, i: nat)
    requires forall d {:trigger SeenIn(before, dirname, n, names, links, fs, d)} ::
               0 <= d < i ==> SeenIn(before, dirname, n, names, links, fs, d)
    ensures AllSeen(fs, links, n, i) <==> AllFound(before, dirname, names, links, n, i)
    ensures SeenTo(fs, n, i) == CountTo(before, dirname, names, n, i)
  {
    if i > 0 {
      SeenIsFound(before, dirname, n, names, links, fs, i - 1);
      assert SeenIn(before, dirname, n, names, links, fs, i - 1);
    }
  }

  /** When all directories have been looked at. */
  lemma FoundExactly(before: FileSystem, dirname: string, n: nat, names: seq<string>, links: Option<Links>)
    requires Free(before, dirname) && AllPlaced(names, n) && n >= 1 && LinksTo(links, before.cwd + [dirname], names)
    ensures var root := before.cwd + [dirname];
            var fs := World(before, root, 0, n, NamePaths(root, names));
            AllSeen(fs, links, n, n) && SeenTo(fs, n, n) == |names|
            <==> Distinct(names) && LinksWork(links, n, |names|)
  {
    var root := before.cwd + [dirname];
    var created := NamePaths(root, names);
    DeletingStarts(before, dirname, n, names);
    var fs := Deleted(before, dirname, n, names, 0);
    forall d | 0 <= d < n ensures SeenIn(before, dirname, n, names, links, fs, d) {
      SeenHere(before, dirname, n, names, links, d);
    }
    SeenIsFound(before, dirname, n, names, links, fs, n);
    AllFollowed(before, dirname, n, names, links);
    AllFoundMeans(before, dirname, names, links, n, n);
    CountAll(before, dirname, names, n, n);
    RemainingEnds(root, names, n);
    PathsCount(root, names);
    forall p | p in created ensures Where(root, n, p) < n {
      CreatedPath(root, n, names, p);
    }
  }
}
