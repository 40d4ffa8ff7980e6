/** As much of a POSIX file system as bonnie++'s file tests use. A path is the list of its components from the root. */
module FileSystems {

  datatype Option<T> = None | Some(value: T)

  type Path = seq<string>

  datatype FileSystem = FileSystem(directories: set<Path>, files: set<Path>, cwd: Path)

  predicate Exists(fs: FileSystem, p: Path) {
    p in fs.directories || p in fs.files
  }

  function Parent(p: Path): Path {
    if p == [] then [] else p[..|p| - 1]
  }

  ghost predicate Valid(fs: FileSystem) {
    && fs.cwd in fs.directories
    && fs.directories !! fs.files
    && forall p {:trigger Exists(fs, p)} :: Exists(fs, p) ==> Parent(p) in fs.directories
  }

  /** The components of a relative name. */
  function Components(s: string): (p: Path)
    ensures |p| >= 1
  {
    if s == "" then
      [""]
    else
      var rest := Components(s[1..]);
      if s[0] == '/' then [""] + rest else [[s[0]] + rest[0]] + rest[1..]
  }

  function Join(p: Path): string
    requires |p| >= 1
  {
    if |p| == 1 then p[0] else p[0] + "/" + Join(p[1..])
  }

  /** Splitting loses nothing, so different names have different components. */
  lemma {:induction false} JoinComponents(s: string)
    ensures Join(Components(s)) == s
  {
    if s != "" {
      JoinComponents(s[1..]);
      JoinPrepend(Components(s[1..]));
      var rest := Components(s[1..]);
      JoinExtend(s[0], rest[0], rest[1..]);
      assert [rest[0]] + rest[1..] == rest;
      assert [s[0]] + s[1..] == s;
    }
  }

  lemma JoinPrepend(p: Path)
    requires |p| >= 1
    ensures Join([""] + p) == ['/'] + Join(p)
  {
    JoinHead("", p);
  }

  lemma JoinExtend(c: char, head: string, tail: Path)
    ensures Join([[c] + head] + tail) == [c] + Join([head] + tail)
  {
    JoinHead(head, tail);
    JoinHead([c] + head, tail);
    if tail != [] {
      AddInFront(c, head, "/" + Join(tail));
    }
  }

  lemma AddInFront(c: char, head: string, rest: string)
    ensures ([c] + head) + rest == [c] + (head + rest)
  {
  }

  lemma JoinHead(head: string, tail: Path)
    ensures Join([head] + tail) == if tail == [] then head else head + ("/" + Join(tail))
  {
    assert ([head] + tail)[1..] == tail;
    if tail != [] {
      assert head + "/" + Join(tail) == head + ("/" + Join(tail));
    }
  }

  lemma {:induction false} OneComponent(s: string)
    requires '/' !in s
    ensures Components(s) == [s]
  {
    if s != "" {
      OneComponent(s[1..]);
      assert s[0] in s && [s[0]] + s[1..] == s;
    }
  }

  lemma {:induction false} TwoComponents(a: string, b: string)
    requires '/' !in a && '/' !in b
    ensures Components(a + "/" + b) == [a, b]
  {
    var s := a + "/" + b;
    if a == "" {
      assert s[1..] == b;
      OneComponent(b);
    } else {
      assert s[1..] == a[1..] + "/" + b && s[0] == a[0] && a[0] in a;
      TwoComponents(a[1..], b);
      assert [a[0]] + a[1..] == a;
    }
  }

  function Resolve(fs: FileSystem, name: string): Path {
    fs.cwd + Components(name)
  }

  function MakeDirectory(fs: FileSystem, name: string): Option<FileSystem> {
    var p := Resolve(fs, name);
    if Exists(fs, p) || Parent(p) !in fs.directories then None else Some(fs.(directories := fs.directories + {p}))
  }

  /** creat(2) accepts a file that is there already. */
  function CreateFile(fs: FileSystem, name: string): Option<FileSystem> {
    var p := Resolve(fs, name);
    if p in fs.directories || Parent(p) !in fs.directories then None else Some(fs.(files := fs.files + {p}))
  }

  /** link(2) does not. */
  function MakeLink(fs: FileSystem, original: string, name: string): Option<FileSystem> {
    var p := Resolve(fs, name);
    if Resolve(fs, original) !in fs.files || Exists(fs, p) || Parent(p) !in fs.directories
    then None else Some(fs.(files := fs.files + {p}))
  }

  /** symlink(2) does not look at its target. */
  function MakeSymlink(fs: FileSystem, name: string): Option<FileSystem> {
    var p := Resolve(fs, name);
    if Exists(fs, p) || Parent(p) !in fs.directories then None else Some(fs.(files := fs.files + {p}))
  }

  function Unlink(fs: FileSystem, name: string): Option<FileSystem> {
    var p := Resolve(fs, name);
    if p in fs.files then Some(fs.(files := fs.files - {p})) else None
  }

  predicate IsIn(p: Path, d: Path) {
    p != [] && Parent(p) == d
  }

  /** What is directly in directory d. */
  function Entries(fs: FileSystem, d: Path): set<Path> {
    set p | p in fs.directories + fs.files && IsIn(p, d)
  }

  function RemoveDirectory(fs: FileSystem, name: string): Option<FileSystem> {
    var p := Resolve(fs, name);
    if p in fs.directories && Entries(fs, p) == {} then Some(fs.(directories := fs.directories - {p})) else None
  }

  function ChangeDirectory(fs: FileSystem, name: string): Option<FileSystem> {
    if name == ".." then Some(fs.(cwd := Parent(fs.cwd))) else
      var p := Resolve(fs, name);
      if p in fs.directories then Some(fs.(cwd := p)) else None
  }

  /** What readdir(3) lists in the working directory. */
  function Listing(fs: FileSystem): (names: set<string>)
    ensures forall e :: e in names <==> e == "." || e == ".." || fs.cwd + [e] in fs.directories + fs.files
  {
    var names := set p | p in Entries(fs, fs.cwd) :: p[|p| - 1];
    forall e | fs.cwd + [e] in fs.directories + fs.files ensures e in names {
      assert fs.cwd + [e] in Entries(fs, fs.cwd) && e == (fs.cwd + [e])[|fs.cwd + [e]| - 1];
    }
    forall e | e in names ensures fs.cwd + [e] in fs.directories + fs.files {
      var p :| p in Entries(fs, fs.cwd) && p[|p| - 1] == e;
      assert p == fs.cwd + [e];
    }
    names + {".", ".."}
  }

  /** A directory that does not exist has nothing below it. */
  lemma {:induction false} NothingBelow(fs: FileSystem, root: Path, p: Path)
    requires Valid(fs) && !Exists(fs, root) && Exists(fs, p)
    ensures !(root <= p)
    decreases |p|
  {
    if root <= p {
      assert p != root;
      assert root <= Parent(p);
      NothingBelow(fs, root, Parent(p));
    }
  }
}
