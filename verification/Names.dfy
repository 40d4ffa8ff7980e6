/** The file names of bonnie++'s `COpenTest::make_names`. */
module Names {
  import opened Arithmetic
  import opened Pigeonhole

  // ----- sprintf("%0*d") -----

  const DIGITS: string := "0123456789"

  predicate IsDigit(c: char) {
    '0' <= c <= '9'
  }

  /** The characters of rand_chars. */
  predicate IsRandChar(c: char) {
    IsDigit(c) || 'a' <= c <= 'z' || 'A' <= c <= 'Z'
  }

  function Digits(n: nat): (s: string)
    ensures |s| >= 1
    ensures forall k :: 0 <= k < |s| ==> IsDigit(s[k])
  {
    if n < 10 then [DIGITS[n]] else Digits(n / 10) + [DIGITS[n % 10]]
  }

  function Zeros(n: nat): (s: string)
    ensures |s| == n
    ensures forall k :: 0 <= k < |s| ==> s[k] == '0'
  {
    if n == 0 then "" else Zeros(n - 1) + "0"
  }

  /** At least `width` digits, padded with zeros in front. */
  function Padded(n: nat, width: nat): (s: string)
    ensures |s| >= width && |s| >= 1
    ensures forall k :: 0 <= k < |s| ==> IsDigit(s[k])
  {
    var d := Digits(n);
    if |d| >= width then d else
      Zeros(width - |d|) + d
  }

  function Pow10(k: nat): (p: nat)
    ensures p >= 1
  {
    if k == 0 then 1 else 10 * Pow10(k - 1)
  }

  function DigitValue(c: char): nat {
    if IsDigit(c) then c as int - '0' as int else 0
  }

  /** The number that a string of digits stands for. */
  function Value(s: string): nat {
    if s == "" then 0 else 10 * Value(s[..|s| - 1]) + DigitValue(s[|s| - 1])
  }

  lemma {:induction false} ValueOfDigits(n: nat)
    ensures Value(Digits(n)) == n
  {
    if n >= 10 {
      ValueOfDigits(n / 10);
      var s := Digits(n);
      assert s[..|s| - 1] == Digits(n / 10);
    } else {
      assert Digits(n)[..0] == "";
    }
  }

  lemma {:induction false} ValueOfZeros(k: nat, s: string)
    ensures Value(Zeros(k) + s) == Value(s)
    decreases k + |s|
  {
    var t := Zeros(k) + s;
    if s != "" {
      assert t[..|t| - 1] == Zeros(k) + s[..|s| - 1];
      ValueOfZeros(k, s[..|s| - 1]);
    } else if k > 0 {
      assert t == Zeros(k - 1) + "0" && t[..|t| - 1] == Zeros(k - 1) + "";
      ValueOfZeros(k - 1, "");
    }
  }

  /** Printing and reading back: padded numerals of different numbers differ. */
  lemma ValueOfPadded(n: nat, width: nat)
    ensures Value(Padded(n, width)) == n
  {
    ValueOfDigits(n);
    if |Digits(n)| < width {
      ValueOfZeros(width - |Digits(n)|, Digits(n));
    }
  }

  lemma {:induction false} DigitCount(n: nat, k: nat)
    requires k >= 1
    ensures n < Pow10(k) <==> |Digits(n)| <= k
  {
    if k == 1 {
      assert Pow10(1) == 10 * Pow10(0) == 10;
    } else if n >= 10 {
      DigitCount(n / 10, k - 1);
    } else {
      TenAtMost(k);
    }
  }

  lemma {:induction false} TenAtMost(k: nat)
    requires k >= 1
    ensures Pow10(k) >= 10
  {
    if k > 1 {
      TenAtMost(k - 1);
    }
  }

  lemma PaddedLength(n: nat, width: nat)
    requires width >= 1
    ensures n < Pow10(width) <==> |Padded(n, width)| == width
  {
    DigitCount(n, width);
  }

  lemma {:induction false} PowerOfTen(k: nat)
    ensures Digits(Pow10(k)) == "1" + Zeros(k)
  {
    if k > 0 {
      PowerOfTen(k - 1);
      assert Pow10(k) / 10 == Pow10(k - 1) && Pow10(k) % 10 == 0;
      assert Pow10(k) >= 10 by { TenAtMost(k); }
    } else {
      assert Digits(1) == "1" + Zeros(0);
    }
  }

  // ----- the names -----

  /** `extra` is RandExtraLen, `suffixes` the random characters drawn for each file. */
  datatype Config = Config(number: nat, directories: nat, random: bool, extra: nat, suffixes: seq<string>)

  predicate ValidSuffix(s: string, extra: nat) {
    |s| <= extra && forall k :: 0 <= k < |s| ==> IsRandChar(s[k])
  }

  predicate ValidConfig(c: Config) {
    && 1 <= c.directories < 100000
    && |c.suffixes| == c.number && forall i :: 0 <= i < c.number ==> ValidSuffix(c.suffixes[i], c.extra)
  }

  /** A directory gets `number / directories + 1` names before the next one is begun. */
  function DirectoryOf(c: Config, i: nat): nat
    requires c.directories >= 1
  {
    i / (PerDirectory(c) + 1)
  }

  function PerDirectory(c: Config): nat
    requires c.directories >= 1
  {
    c.number / c.directories
  }

  /** How many names of its directory come before name i. */
  function PlaceInDirectory(c: Config, i: nat): nat
    requires c.directories >= 1
  {
    i % (PerDirectory(c) + 1)
  }

  lemma NextDirectory(c: Config, i: nat)
    requires c.directories >= 1
    ensures DirectoryOf(c, 0) == 0 && PlaceInDirectory(c, 0) == 0
    ensures PlaceInDirectory(c, i) + 1 > PerDirectory(c) ==>
              DirectoryOf(c, i + 1) == DirectoryOf(c, i) + 1 && PlaceInDirectory(c, i + 1) == 0
    ensures PlaceInDirectory(c, i) + 1 <= PerDirectory(c) ==>
              DirectoryOf(c, i + 1) == DirectoryOf(c, i) && PlaceInDirectory(c, i + 1) == PlaceInDirectory(c, i) + 1
  {
    NextDivMod(i, PerDirectory(c) + 1);
    DivModUnique(0, PerDirectory(c) + 1, 0, 0);
  }

  /** The drawn characters stand in front of the number in random mode, behind it otherwise. */
  function Numbered(random: bool, suffix: string, i: nat, width: nat): string {
    if random then suffix + Padded(i, width) else Padded(i, width) + suffix
  }

  function BaseName(c: Config, i: nat): string
    requires i < |c.suffixes|
  {
    Numbered(c.random, c.suffixes[i], i, 7)
  }

  function DirectoryName(d: nat): string {
    Padded(d, 5)
  }

  /** What make_names writes for file i. */
  function FullName(c: Config, i: nat): string
    requires ValidConfig(c) && i < c.number
  {
    (if c.directories != 1 then DirectoryName(DirectoryOf(c, i)) + "/" else "") + BaseName(c, i)
  }

  /** Every file is assigned to a directory that exists. */
  lemma DirectoryIsValid(c: Config, i: nat)
    requires c.directories >= 1 && i < c.number
    ensures DirectoryOf(c, i) < c.directories
  {
    var whole := c.number / c.directories;
    assert c.number == c.directories * whole + c.number % c.directories;
    assert (whole + 1) * c.directories == c.directories * whole + c.directories;
    QuotientBelow(i, whole + 1, c.directories);
  }

  lemma DirectoryNameLength(d: nat)
    requires d < 100000
    ensures |DirectoryName(d)| == 5
  {
    assert Pow10(5) == 10 * Pow10(4) == 100 * Pow10(3) == 1000 * Pow10(2) == 10000 * Pow10(1) == 100000 * Pow10(0);
    PaddedLength(d, 5);
  }

  function AllNames(c: Config): seq<string>
    requires ValidConfig(c)
  {
    seq(c.number, i requires 0 <= i < c.number => FullName(c, i))
  }

  // ----- when the names differ -----

  lemma DigitSplit(x: nat, p: nat)
    requires p >= 1
    ensures x / (10 * p) == x / 10 / p && x % (10 * p) == 10 * (x / 10 % p) + x % 10
  {
    var q, r := x / 10 / p, x / 10 % p;
    assert x / 10 == p * q + r;
    assert 10 * (p * q) == 10 * p * q;
    DivModUnique(x, 10 * p, q, 10 * r + x % 10);
  }

  predicate AllDigits(s: string) {
    forall k :: 0 <= k < |s| ==> IsDigit(s[k])
  }

  /** Leaving out the last digits divides by 10 at least. */
  lemma {:induction false} LeadingDigits(s: string, m: nat)
    requires 1 <= m <= |s|
    ensures 10 * Value(s[..|s| - m]) <= Value(s)
  {
    if m > 1 {
      var front := s[..|s| - 1];
      LeadingDigits(front, m - 1);
      assert front[..|front| - (m - 1)] == s[..|s| - m];
    }
  }

  /** The last m digits are the remainder modulo 10^m. */
  lemma {:induction false} TrailingDigits(s: string, m: nat)
    requires AllDigits(s) && m <= |s|
    ensures Value(s[|s| - m..]) == Value(s) % Pow10(m)
  {
    if m == 0 {
      assert s[|s|..] == "";
    } else {
      var front, last := s[..|s| - 1], s[|s| - m..];
      TrailingDigits(front, m - 1);
      assert last[..|last| - 1] == front[|front| - (m - 1)..];
      assert Value(s) / 10 == Value(front) && Value(s) % 10 == DigitValue(s[|s| - 1]);
      DigitSplit(Value(s), Pow10(m - 1));
    }
  }

  lemma CloseRemainders(i: nat, k: nat, p: nat)
    requires p >= 1 && i < k < i + p
    ensures i % p != k % p
  {
    var q, r := i / p, i % p + (k - i);
    assert i == p * q + i % p;
    if r < p {
      DivModUnique(k, p, q, r);
    } else {
      assert p * (q + 1) == p * q + p;
      DivModUnique(k, p, q + 1, r - p);
    }
  }

  /** In front of a suffix, the numerals of i and k differ if k fits the field, or if i is more than half of k. */
  lemma NumeralsInFrontDiffer(i: nat, k: nat, s: string, t: string, width: nat)
    requires width >= 1 && i < k && (k < Pow10(width) || k < 2 * i)
    ensures Padded(i, width) + s != Padded(k, width) + t
  {
    var a, b := Padded(i, width), Padded(k, width);
    if a + s == b + t {
      SameBeginning(a, s, b, t);
      if |a| <= |b| {
        ShorterNumeral(i, k, width);
        PaddedLength(k, width);
      } else {
        ShorterNumeral(k, i, width);
      }
    }
  }

  lemma ShorterNumeral(i: nat, k: nat, width: nat)
    requires var a, b := Padded(i, width), Padded(k, width); |a| <= |b| && a == b[..|a|]
    ensures i <= k
    ensures if |Padded(i, width)| == |Padded(k, width)| then i == k else 10 * i <= k
  {
    ValueOfPadded(i, width);
    ValueOfPadded(k, width);
    var b := Padded(k, width);
    if |Padded(i, width)| < |b| {
      LeadingDigits(b, |b| - |Padded(i, width)|);
    } else {
      assert b[..|b|] == b;
    }
  }

  lemma SameBeginning(a: string, s: string, b: string, t: string)
    requires a + s == b + t
    ensures |a| <= |b| ==> a == b[..|a|]
    ensures |b| <= |a| ==> b == a[..|b|]
  {
    assert |a| <= |b| ==> a == (a + s)[..|a|] && b[..|a|] == (b + t)[..|a|];
    assert |b| <= |a| ==> b == (b + t)[..|b|] && a[..|b|] == (a + s)[..|b|];
  }

  /** Behind a suffix, the numerals of two numbers less than 10^width apart differ. */
  lemma NumeralsBehindDiffer(i: nat, k: nat, s: string, t: string, width: nat)
    requires width >= 1 && i < k < i + Pow10(width)
    ensures s + Padded(i, width) != t + Padded(k, width)
  {
    var a, b := Padded(i, width), Padded(k, width);
    if s + a == t + b {
      SameEnding(s, a, t, b, width);
      TrailingDigits(a, width);
      TrailingDigits(b, width);
      ValueOfPadded(i, width);
      ValueOfPadded(k, width);
      CloseRemainders(i, k, Pow10(width));
    }
  }

  lemma SameEnding(s: string, a: string, t: string, b: string, n: nat)
    requires s + a == t + b && n <= |a| && n <= |b|
    ensures a[|a| - n..] == b[|b| - n..]
  {
    assert a[|a| - n..] == (s + a)[|s + a| - n..];
    assert b[|b| - n..] == (t + b)[|t + b| - n..];
  }

  /** The condition for the names to differ: not too many files in all, or not too many in a directory. */
  predicate FewEnough(number: nat, directories: nat)
    requires directories >= 1
  {
    number <= Pow10(7) || number / directories < Pow10(7)
  }

  /** Files of one directory are close together. */
  lemma SameDirectory(c: Config, i: nat, k: nat, limit: nat)
    requires c.directories >= 1 && i < k < c.number && DirectoryOf(c, i) == DirectoryOf(c, k)
    requires c.number <= limit || PerDirectory(c) < limit
    ensures k < i + limit && (k < limit || k < 2 * i)
  {
    var size, d := PerDirectory(c) + 1, DirectoryOf(c, i);
    assert i == size * d + i % size && k == size * d + k % size;
    if d >= 1 {
      MultipleAtLeast(size, d);
    }
  }

  lemma FullNamesDiffer(c: Config, i: nat, k: nat, width: nat)
    requires ValidConfig(c) && i < k < c.number && width == 7
    requires c.number <= Pow10(width) || PerDirectory(c) < Pow10(width)
    ensures FullName(c, i) != FullName(c, k)
  {
    if FullName(c, i) == FullName(c, k) {
      SameDirectoryName(c, i, k);
      SameDirectory(c, i, k, Pow10(width));
      if c.random {
        NumeralsBehindDiffer(i, k, c.suffixes[i], c.suffixes[k], width);
      } else {
        NumeralsInFrontDiffer(i, k, c.suffixes[i], c.suffixes[k], width);
      }
    }
  }

  /** Equal names are in the same directory. */
  lemma SameDirectoryName(c: Config, i: nat, k: nat)
    requires ValidConfig(c) && i < c.number && k < c.number && FullName(c, i) == FullName(c, k)
    ensures DirectoryOf(c, i) == DirectoryOf(c, k) && BaseName(c, i) == BaseName(c, k)
  {
    DirectoryIsValid(c, i);
    DirectoryIsValid(c, k);
    if c.directories != 1 {
      var a, b := DirectoryName(DirectoryOf(c, i)), DirectoryName(DirectoryOf(c, k));
      DirectoryNameLength(DirectoryOf(c, i));
      DirectoryNameLength(DirectoryOf(c, k));
      assert FullName(c, i)[6..] == BaseName(c, i) && FullName(c, k)[6..] == BaseName(c, k);
      assert FullName(c, i)[..5] == a && FullName(c, k)[..5] == b;
      ValueOfPadded(DirectoryOf(c, i), 5);
      ValueOfPadded(DirectoryOf(c, k), 5);
    } else {
      assert FullName(c, i) == BaseName(c, i) && FullName(c, k) == BaseName(c, k);
    }
  }

  /** With few enough files all names differ, in both modes and whatever is drawn. */
  lemma NamesDistinct(c: Config)
    requires ValidConfig(c) && FewEnough(c.number, c.directories)
    ensures Distinct(AllNames(c))
  {
    var names := AllNames(c);
    forall i, k | 0 <= i < k < |names| ensures names[i] != names[k] {
      FullNamesDiffer(c, i, k, 7);
    }
  }

  ghost predicate AlwaysDistinct(number: nat, directories: nat, random: bool, extra: nat) {
    forall suffixes :: ValidConfig(Config(number, directories, random, extra, suffixes))
                       ==> Distinct(AllNames(Config(number, directories, random, extra, suffixes)))
  }

  /** The names are safe from collision exactly when there are at most 10^7 files, or fewer than 10^7 for each directory,
      rounded down. */
  lemma DistinctExactly(number: nat, directories: nat, random: bool, extra: nat)
    requires 1 <= directories < 100000 && extra >= 1
    ensures AlwaysDistinct(number, directories, random, extra) <==> FewEnough(number, directories)
  {
    if FewEnough(number, directories) {
      forall suffixes | ValidConfig(Config(number, directories, random, extra, suffixes))
        ensures Distinct(AllNames(Config(number, directories, random, extra, suffixes)))
      {
        NamesDistinct(Config(number, directories, random, extra, suffixes));
      }
    } else {
      Collision(number, directories, random, extra, 7);
    }
  }

  /** One drawn character makes a shorter numeral look like the first one that is too long for its field. */
  lemma NumeralsCollide(width: nat)
    requires width >= 1
    ensures Numbered(true, "1", 0, width) == Numbered(true, "", Pow10(width), width)
    ensures Numbered(false, "0", Pow10(width - 1), width) == Numbered(false, "", Pow10(width), width)
  {
    PowerOfTen(width);
    PowerOfTen(width - 1);
    assert Padded(Pow10(width), width) == "1" + Zeros(width);
    assert Digits(0) == "0";
    assert Padded(0, width) == Zeros(width - 1) + "0";
    assert Padded(Pow10(width - 1), width) == "1" + Zeros(width - 1);
  }

  /** The counterexample: with one drawn character, file 10^6 (or 0, in random mode) gets the name of file 10^7 in the
      first directory. */
  lemma Collision(number: nat, directories: nat, random: bool, extra: nat, width: nat)
    requires extra >= 1 && 1 <= directories < 100000
    requires width == 7 && number > Pow10(width) && number / directories >= Pow10(width)
    ensures !AlwaysDistinct(number, directories, random, extra)
  {
    var first, second := if random then 0 else Pow10(width - 1), Pow10(width);
    var drawn := if random then "1" else "0";
    var suffixes := OneSuffix(number, first, drawn);
    var c := Config(number, directories, random, extra, suffixes);
    NumeralsCollide(width);
    FirstDirectory(c, first);
    FirstDirectory(c, second);
    SameName(c, first, second);
  }

  lemma FirstDirectory(c: Config, i: nat)
    requires c.directories >= 1 && i <= PerDirectory(c)
    ensures DirectoryOf(c, i) == 0
  {
    DivModUnique(i, PerDirectory(c) + 1, 0, i);
  }

  function OneSuffix(number: nat, first: nat, drawn: string): (suffixes: seq<string>)
    requires drawn == "0" || drawn == "1"
    ensures |suffixes| == number && forall i :: 0 <= i < number ==> suffixes[i] == if i == first then drawn else ""
    ensures forall i :: 0 <= i < number ==> ValidSuffix(suffixes[i], 1)
  {
    seq(number, i => if i == first then drawn else "")
  }

  lemma SameName(c: Config, first: nat, second: nat)
    requires ValidConfig(c) && first < second < c.number && DirectoryOf(c, first) == DirectoryOf(c, second)
    requires BaseName(c, first) == BaseName(c, second)
    ensures !Distinct(AllNames(c))
  {
    var names := AllNames(c);
    assert FullName(c, first) == FullName(c, second);
    assert names[first] == names[second];
  }

  // ----- the name buffer -----

  const NUL: char := '\0'

  /** Names one after another, each with its terminating NUL. */
  function Layout(names: seq<string>): string {
    if names == [] then "" else Layout(names[..|names| - 1]) + names[|names| - 1] + [NUL]
  }

  /** What make_names allocates per file; MaxNameLen is 7 + RandExtraLen. */
  function Slot(c: Config): nat {
    if c.directories == 1 then 7 + c.extra + 1 else 7 + c.extra + 1 + 6
  }

  lemma NameFitsSlot(c: Config, i: nat)
    requires ValidConfig(c) && i < c.number
    ensures i < Pow10(7) ==> |FullName(c, i)| + 1 <= Slot(c)
  {
    PaddedLength(i, 7);
    DirectoryIsValid(c, i);
    DirectoryNameLength(DirectoryOf(c, i));
  }

  lemma {:induction false} LayoutWithin(c: Config, i: nat)
    requires ValidConfig(c) && i <= c.number <= Pow10(7)
    ensures |Layout(AllNames(c)[..i])| <= i * Slot(c)
  {
    if i > 0 {
      LayoutWithin(c, i - 1);
      LayoutStep(AllNames(c), i - 1);
      NameFitsSlot(c, i - 1);
      OneMoreSlot(i - 1, Slot(c));
    }
  }

  lemma OneMoreSlot(i: nat, slot: nat)
    ensures (i + 1) * slot == i * slot + slot
  {
  }

  lemma {:induction false} LongNamesLayout(c: Config, i: nat, width: nat)
    requires ValidConfig(c) && i <= c.number && width == 7
    requires forall k :: 0 <= k < c.number ==> |c.suffixes[k]| == c.extra
    ensures |Layout(AllNames(c)[..i])| >= i * Slot(c)
    ensures i > Pow10(width) ==> |Layout(AllNames(c)[..i])| > i * Slot(c)
  {
    if i > 0 {
      LongNamesLayout(c, i - 1, width);
      LayoutStep(AllNames(c), i - 1);
      LongNameFillsSlot(c, i - 1, width);
      OneMoreSlot(i - 1, Slot(c));
    }
  }

  lemma LongNameFillsSlot(c: Config, i: nat, width: nat)
    requires ValidConfig(c) && i < c.number && width == 7 && |c.suffixes[i]| == c.extra
    ensures |FullName(c, i)| + 1 >= Slot(c)
    ensures i >= Pow10(width) ==> |FullName(c, i)| + 1 > Slot(c)
  {
    PaddedLength(i, width);
    DirectoryIsValid(c, i);
    DirectoryNameLength(DirectoryOf(c, i));
  }

  ghost predicate AlwaysFits(number: nat, directories: nat, random: bool, extra: nat) {
    forall suffixes :: ValidConfig(Config(number, directories, random, extra, suffixes))
                       ==> Fits(Config(number, directories, random, extra, suffixes))
  }

  /** The generated names fit the buffer that make_names allocates for them. */
  ghost predicate Fits(c: Config)
    requires ValidConfig(c)
  {
    |Layout(AllNames(c))| <= Slot(c) * c.number
  }

  lemma NamesFit(c: Config)
    requires ValidConfig(c) && c.number <= Pow10(7)
    ensures Fits(c)
  {
    LayoutWithin(c, c.number);
    assert AllNames(c)[..c.number] == AllNames(c);
    Commuted(c.number, Slot(c));
  }

  /** The buffer is big enough whatever is drawn exactly up to 10^7 files: the eighth digit is not allowed for. */
  lemma FitsExactly(number: nat, directories: nat, random: bool, extra: nat)
    requires 1 <= directories < 100000
    ensures AlwaysFits(number, directories, random, extra) <==> number <= Pow10(7)
  {
    if number <= Pow10(7) {
      forall suffixes | ValidConfig(Config(number, directories, random, extra, suffixes))
        ensures Fits(Config(number, directories, random, extra, suffixes))
      {
        NamesFit(Config(number, directories, random, extra, suffixes));
      }
    } else {
      var c := Config(number, directories, random, extra, seq(number, i => Zeros(extra)));
      assert ValidConfig(c);
      LongNamesLayout(c, number, 7);
      assert AllNames(c)[..number] == AllNames(c);
      Commuted(number, Slot(c));
    }
  }

  /** The directories of the first `n` files. */
  function Directories(c: Config, n: nat): (d: seq<nat>)
    requires c.directories >= 1
    ensures |d| == n
  {
    if n == 0 then [] else Directories(c, n - 1) + [DirectoryOf(c, n - 1)]
  }

  lemma {:induction false} DirectoryAt(c: Config, n: nat, i: nat)
    requires c.directories >= 1 && i < n
    ensures Directories(c, n)[i] == DirectoryOf(c, i)
  {
    if i < n - 1 {
      DirectoryAt(c, n - 1, i);
    }
  }

  /** Where each name starts when they are laid out one after another. */
  function Pointers(names: seq<string>): (p: seq<nat>)
    ensures |p| == |names|
  {
    if names == [] then [] else Pointers(names[..|names| - 1]) + [|Layout(names[..|names| - 1])|]
  }

  /** The loop of make_names: the names lie in the buffer one after another without overlap, and the loop's counters
      assign the directories as DirectoryOf says. There is a `dirIndex` in synchronous mode only. */
  method FillNames(c: Config, buf: array<char>, fileNames: array<nat>, dirIndex: array?<nat>, ghost names: seq<string>)
    requires ValidConfig(c) && names == AllNames(c)
    requires |Layout(names)| <= buf.Length && fileNames.Length == c.number
    requires dirIndex != null ==> dirIndex.Length >= c.number && dirIndex != fileNames
    modifies buf, fileNames, if dirIndex == null then {} else {dirIndex}
    ensures buf[..|Layout(names)|] == Layout(names) && fileNames[..] == Pointers(names)
    ensures dirIndex != null ==> dirIndex[..c.number] == Directories(c, c.number)
  {
    var perDirectory := PerDirectory(c);
    NextDirectory(c, 0);
    var inDirectory, directory, at := 0, 0, 0;
    for i := 0 to c.number
      invariant Filled(c, names, buf, fileNames, dirIndex, i, at)
      invariant directory == DirectoryOf(c, i) && inDirectory == PlaceInDirectory(c, i)
    {
      at := FillOne(c, buf, fileNames, dirIndex, at, directory, i, names);
      inDirectory := inDirectory + 1;
      NextDirectory(c, i);
      if inDirectory > perDirectory {
        inDirectory, directory := 0, directory + 1;
      }
    }
    assert names[..c.number] == names && fileNames[..c.number] == fileNames[..];
  }

  ghost predicate Filled(c: Config, names: seq<string>, buf: array<char>, fileNames: array<nat>, dirIndex: array?<nat>,
                         i: nat, at: nat)
    requires i <= |names| == fileNames.Length && c.directories >= 1
    requires dirIndex != null ==> dirIndex.Length >= |names|
    reads buf, fileNames, dirIndex
  {
    && at == |Layout(names[..i])| <= buf.Length && buf[..at] == Layout(names[..i])
    && fileNames[..i] == Pointers(names[..i])
    && (dirIndex != null ==> dirIndex[..i] == Directories(c, i))
  }

  /** One turn of the loop but for the counters. */
  method FillOne(c: Config, buf: array<char>, fileNames: array<nat>, dirIndex: array?<nat>, at: nat, directory: nat, i: nat,
                 ghost names: seq<string>) returns (next: nat)
    requires ValidConfig(c) && i < c.number == |names| && names[i] == FullName(c, i)
    requires |Layout(names)| <= buf.Length && fileNames.Length == c.number
    requires dirIndex != null ==> dirIndex.Length >= c.number && dirIndex != fileNames
    requires Filled(c, names, buf, fileNames, dirIndex, i, at) && directory == DirectoryOf(c, i)
    modifies buf, fileNames, if dirIndex == null then {} else {dirIndex}
    ensures Filled(c, names, buf, fileNames, dirIndex, i + 1, next)
  {
    LayoutStep(names, i);
    RoomForName(names, i, at);
    fileNames[i] := at;
    if dirIndex != null {
      dirIndex[i] := directory;
    }
    next := WriteName(c, buf, at, directory, i);
  }

  /** The `sprintf` calls of one turn. */
  method WriteName(c: Config, buf: array<char>, at: nat, directory: nat, i: nat) returns (next: nat)
    requires ValidConfig(c) && i < c.number && directory == DirectoryOf(c, i)
    requires at + |FullName(c, i)| + 1 <= buf.Length
    modifies buf
    ensures next == at + |FullName(c, i)| + 1
    ensures buf[..next] == old(buf[..at]) + (FullName(c, i) + [NUL])
  {
    next := at;
    ghost var text := buf[..at];
    if c.directories != 1 {
      CopyString(buf, next, DirectoryName(directory) + "/");
      next := next + |DirectoryName(directory) + "/"|;
    }
    CopyString(buf, next, BaseName(c, i) + [NUL]);
    next := next + |BaseName(c, i)| + 1;
    PartsOfName(c, i, text);
  }

  lemma PartsOfName(c: Config, i: nat, text: string)
    requires ValidConfig(c) && i < c.number
    ensures c.directories == 1 ==> text + (BaseName(c, i) + [NUL]) == text + (FullName(c, i) + [NUL])
    ensures c.directories != 1 ==> text + (DirectoryName(DirectoryOf(c, i)) + "/") + (BaseName(c, i) + [NUL])
                                   == text + (FullName(c, i) + [NUL])
  {
  }

  lemma LayoutStep(names: seq<string>, i: nat)
    requires i < |names|
    ensures Layout(names[..i + 1]) == Layout(names[..i]) + (names[i] + [NUL])
    ensures Pointers(names[..i + 1]) == Pointers(names[..i]) + [|Layout(names[..i])|]
  {
    assert names[..i + 1][..i] == names[..i];
  }

  /** The effect of `sprintf` into the buffer. */
  method CopyString(buf: array<char>, at: nat, s: string)
    requires at + |s| <= buf.Length
    modifies buf
    ensures buf[..at] == old(buf[..at])
    ensures buf[..at + |s|] == old(buf[..at]) + s
  {
    for k := 0 to |s|
      invariant buf[..at] == old(buf[..at])
      invariant buf[at..at + k] == s[..k]
    {
      buf[at + k] := s[k];
    }
    assert buf[..at + |s|] == buf[..at] + buf[at..at + |s|];
  }

  /** A C string read from position `at`. */
  function CString(text: string, at: nat): string
    requires at <= |text|
    decreases |text| - at
  {
    if at == |text| || text[at] == NUL then "" else [text[at]] + CString(text, at + 1)
  }

  predicate NoNul(s: string) {
    forall k :: 0 <= k < |s| ==> s[k] != NUL
  }

  lemma {:induction false} ReadName(text: string, at: nat, s: string)
    requires NoNul(s) && at + |s| < |text| && text[at..at + |s|] == s && text[at + |s|] == NUL
    ensures CString(text, at) == s
    decreases |s|
  {
    if s != "" {
      assert text[at] == text[at..at + |s|][0];
      assert text[at + 1..at + 1 + |s[1..]|] == text[at..at + |s|][1..];
      ReadName(text, at + 1, s[1..]);
    }
  }

  lemma {:induction false} LayoutAt(names: seq<string>, i: nat)
    requires i < |names|
    ensures var at := |Layout(names[..i])|;
            && at + |names[i]| < |Layout(names)|
            && Layout(names)[at..at + |names[i]|] == names[i]
            && Layout(names)[at + |names[i]|] == NUL
  {
    var front := names[..|names| - 1];
    if i < |names| - 1 {
      LayoutAt(front, i);
      assert front[..i] == names[..i];
    }
  }

  lemma RoomForName(names: seq<string>, i: nat, at: nat)
    requires i < |names| && at == |Layout(names[..i])|
    ensures at + |names[i]| + 1 <= |Layout(names)|
  {
    LayoutAt(names, i);
  }

  lemma {:induction false} PointerAt(names: seq<string>, i: nat)
    requires i < |names|
    ensures Pointers(names)[i] == |Layout(names[..i])|
  {
    var front := names[..|names| - 1];
    if i < |names| - 1 {
      PointerAt(front, i);
      assert front[..i] == names[..i];
    }
  }

  /** In a buffer that starts with the layout, the pointer of file i reads as exactly the name of file i. */
  lemma PointerReadsName(names: seq<string>, i: nat, text: string)
    requires i < |names| && NoNul(names[i]) && Layout(names) <= text
    ensures Pointers(names)[i] <= |text|
    ensures CString(text, Pointers(names)[i]) == names[i]
  {
    PointerAt(names, i);
    LayoutAt(names, i);
    ReadNameInside(text, Layout(names), |Layout(names[..i])|, names[i]);
  }

  lemma ReadNameInside(text: string, layout: string, at: nat, s: string)
    requires layout <= text && NoNul(s)
    requires at + |s| < |layout| && layout[at..at + |s|] == s && layout[at + |s|] == NUL
    ensures CString(text, at) == s
  {
    assert text[at..at + |s|] == layout[at..at + |s|];
    ReadName(text, at, s);
  }

  /** No generated name contains a NUL or a stray slash, or starts with a dot. */
  lemma NamesAreVisible(c: Config, i: nat)
    requires ValidConfig(c) && i < c.number
    ensures NoNul(FullName(c, i))
    ensures '/' !in BaseName(c, i) && '/' !in DirectoryName(DirectoryOf(c, i))
    ensures |BaseName(c, i)| >= 1 && BaseName(c, i)[0] != '.'
  {
    var s, base := FullName(c, i), BaseName(c, i);
    forall k | 0 <= k < |base| ensures IsRandChar(base[k]) {
    }
    forall k | 0 <= k < |s| ensures s[k] != NUL {
    }
  }

  /** Two names in full: the number is padded to seven digits, with the drawn letters behind it or in front of it. */
  lemma NamesSpelledOut(c: Config)
    requires ValidConfig(c) && c.number == 1024 && c.directories == 2 && c.suffixes[600] == "a"
    ensures FullName(c, 600) == if c.random then "00001/a0000600" else "00001/0000600a"
  {
    assert Digits(600) == "600" && Digits(1) == "1";
  }
}
