/** The Dhrystone 2.1 benchmark: a program on global variables and two heap records, with its expected final state. */
module Dhrystones {

  datatype Enumeration = Ident1 | Ident2 | Ident3 | Ident4 | Ident5

  const INT_MAX: int := 0x7fff_ffff

  /** The value that a 32-bit int keeps of n. */
  function Wrap32(n: int): int {
    (n + INT_MAX + 1) % 0x1_0000_0000 - INT_MAX - 1
  }

  /** The string literals of the program. */
  datatype Texts = Texts(some: string, first: string, second: string, third: string)

  const PROGRAM: string := "DHRYSTONE PROGRAM, "

  function TextsAfter(program: string): Texts {
    Texts(program + "SOME STRING", program + "1'ST STRING", program + "2'ND STRING", program + "3'RD STRING")
  }

  /** The sign of strcmp. */
  function StrCmp(a: string, b: string): int {
    if a == "" || b == "" then |a| - |b|
    else if a[0] == b[0] then StrCmp(a[1..], b[1..])
    else a[0] as int - b[0] as int
  }

  /** Rec_Type, with the variant that the program uses. */
  class Record {
    var ptrComp: Record?
    var discr: Enumeration
    var enumComp: Enumeration
    var intComp: int
    var strComp: string

    constructor ()
    {
      ptrComp, discr, enumComp, intComp, strComp := null, Ident1, Ident1, 0, "";
    }

    /** structassign */
    method Assign(source: Record)
      modifies this
      ensures ptrComp == old(source.ptrComp) && discr == old(source.discr) && enumComp == old(source.enumComp)
      ensures intComp == old(source.intComp) && strComp == old(source.strComp)
    {
      ptrComp, discr, enumComp := source.ptrComp, source.discr, source.enumComp;
      intComp, strComp := source.intComp, source.strComp;
    }
  }

  /** The characters that Func_2 compares are there and differ. */
  predicate Distinguished(str1: string, str2: string) {
    |str1| > 2 && |str2| > 3 && str1[2] != str2[3]
  }

  predicate InOrder(texts: Texts) {
    StrCmp(texts.first, texts.second) <= 0 && Distinguished(texts.first, texts.second)
  }

  predicate Func3(enumVal: Enumeration) {
    enumVal == Ident3
  }

  function Proc7(int1: int, int2: int): int {
    var loc := int1 + 2;
    int2 + loc
  }

  /** What the measurement loop leaves in the variables of `main`. */
  datatype Locals = Locals(int1: int, int2: int, int3: int, enumLoc: Enumeration, str1: string, str2: string)

  class Dhrystone {
    var ptrGlob: Record
    var nextPtrGlob: Record
    var intGlob: int
    var boolGlob: bool
    var ch1Glob: char
    var ch2Glob: char
    const arr1Glob: array<int>
    const arr2Glob: array2<int>

    ghost predicate Valid()
      reads this
    {
      ptrGlob != nextPtrGlob && arr1Glob.Length == 50 && arr2Glob.Length0 == arr2Glob.Length1 == 50
    }

    /** The first record as the measurement loop finds it on every turn, whatever its integer. */
    ghost predicate Linked(some: string)
      reads this, ptrGlob
    {
      && ptrGlob.ptrComp == nextPtrGlob && ptrGlob.discr == Ident1 && ptrGlob.enumComp == Ident3
      && ptrGlob.strComp == some
    }

    /** The initializations. */
    constructor (some: string)
      ensures Valid() && Linked(some) && ptrGlob.intComp == 40 && arr2Glob[8, 7] == 10
      ensures fresh(ptrGlob) && fresh(nextPtrGlob) && fresh(arr1Glob) && fresh(arr2Glob)
    {
      nextPtrGlob := new Record();
      ptrGlob := new Record();
      arr1Glob := new int[50];
      arr2Glob := new int[50, 50];
      intGlob, boolGlob, ch1Glob, ch2Glob := 0, false, '\0', '\0';
      new;
      ptrGlob.ptrComp := nextPtrGlob;
      ptrGlob.discr := Ident1;
      ptrGlob.enumComp := Ident3;
      ptrGlob.intComp := 40;
      ptrGlob.strComp := some;
      arr2Glob[8, 7] := 10;
    }

    /** The global variables have the values that `main` prints as those they should have. */
    ghost predicate AsPrinted(some: string)
      requires Valid()
      reads this, ptrGlob, nextPtrGlob, arr1Glob
    {
      && intGlob == 5 && boolGlob && ch1Glob == 'A' && ch2Glob == 'B' && arr1Glob[8] == 7
      && ptrGlob.discr == Ident1 && ptrGlob.enumComp == Ident3 && ptrGlob.intComp == 17
      && ptrGlob.strComp == some
      && nextPtrGlob.discr == Ident1 && nextPtrGlob.enumComp == Ident2 && nextPtrGlob.intComp == 18
      && nextPtrGlob.strComp == some
      && nextPtrGlob.ptrComp == ptrGlob.ptrComp
    }

    method Func1(ch1: char, ch2: char) returns (r: Enumeration)
      modifies `ch1Glob
      ensures if ch1 != ch2 then r == Ident1 && ch1Glob == old(ch1Glob) else r == Ident2 && ch1Glob == ch1
    {
      if ch1 != ch2 {
        r := Ident1;
      } else {
        ch1Glob := ch1;
        r := Ident2;
      }
    }

    /** The loop ends only when the two characters differ. */
    method Func2(str1: string, str2: string) returns (r: bool)
      requires Distinguished(str1, str2)
      modifies `ch1Glob, `intGlob
      ensures r == (StrCmp(str1, str2) > 0)
      ensures ch1Glob == old(ch1Glob) && intGlob == if r then 10 else old(intGlob)
    {
      var intLoc := 2;
      var chLoc: char := '\0';
      while intLoc <= 2
        invariant 2 <= intLoc <= 3 && (intLoc == 3 ==> chLoc == 'A')
        invariant ch1Glob == old(ch1Glob) && intGlob == old(intGlob)
      {
        var same := Func1(str1[intLoc], str2[intLoc + 1]);
        if same == Ident1 {
          chLoc := 'A';
          intLoc := intLoc + 1;
        }
      }
      if 'W' <= chLoc < 'Z' {
        intLoc := 7;
      }
      if chLoc == 'R' {
        return true;
      }
      if StrCmp(str1, str2) > 0 {
        intLoc := intLoc + 7;
        intGlob := intLoc;
        return true;
      }
      return false;
    }

    method Proc2(intRef: int) returns (r: int)
      requires ch1Glob == 'A'
      ensures r == intRef + 9 - intGlob
    {
      var intLoc := intRef + 10;
      var enumLoc := Ident2;
      r := intRef;
      var more := true;
      while more
        invariant if more then intLoc == intRef + 10 else r == intRef + 9 - intGlob
        decreases more
      {
        if ch1Glob == 'A' {
          intLoc := intLoc - 1;
          r := intLoc - intGlob;
          enumLoc := Ident1;
        }
        more := enumLoc != Ident1;
      }
    }

    /** `record` holds the pointer that the parameter refers to. */
    method Proc3(record: Record)
      modifies record`ptrComp, ptrGlob`intComp
      ensures record.ptrComp == old(ptrGlob.ptrComp) && ptrGlob.intComp == 12 + intGlob
    {
      record.ptrComp := ptrGlob.ptrComp;
      ptrGlob.intComp := Proc7(10, intGlob);
    }

    method Proc4()
      modifies `boolGlob, `ch2Glob
      ensures boolGlob == (ch1Glob == 'A' || old(boolGlob)) && ch2Glob == 'B'
    {
      var boolLoc := ch1Glob == 'A';
      boolGlob := boolLoc || boolGlob;
      ch2Glob := 'B';
    }

    method Proc5()
      modifies `ch1Glob, `boolGlob
      ensures ch1Glob == 'A' && !boolGlob
    {
      ch1Glob := 'A';
      boolGlob := false;
    }

    method Proc6(enumVal: Enumeration) returns (enumRef: Enumeration)
      ensures enumVal == Ident3 ==> enumRef == Ident2
      ensures enumVal == Ident2 ==> enumRef == if intGlob > 100 then Ident1 else Ident4
      ensures enumVal == Ident5 ==> enumRef == Ident3
      ensures enumVal == Ident1 || enumVal == Ident4 ==> enumRef == enumVal
    {
      enumRef := enumVal;
      if !Func3(enumVal) {
        enumRef := Ident4;
      }
      match enumVal
      case Ident1 => enumRef := Ident1;
      case Ident2 =>
        if intGlob > 100 {
          enumRef := Ident1;
        } else {
          enumRef := Ident4;
        }
      case Ident3 => enumRef := Ident2;
      case Ident4 =>
      case Ident5 => enumRef := Ident3;
    }

    /** The first record points to the second. Afterwards the second points to itself and is otherwise a copy of the first,
        but for its integer and its enumeration; in the case that does not occur both have the integer 5. */
    method Proc1(ptrVal: Record)
      requires Valid() && ptrVal == ptrGlob && ptrGlob.ptrComp == nextPtrGlob
      modifies ptrGlob, nextPtrGlob
      ensures ptrGlob.ptrComp == nextPtrGlob == nextPtrGlob.ptrComp
      ensures ptrGlob.discr == nextPtrGlob.discr == old(ptrGlob.discr)
      ensures ptrGlob.strComp == nextPtrGlob.strComp == old(ptrGlob.strComp)
      ensures ptrGlob.enumComp == old(ptrGlob.enumComp)
      ensures if ptrGlob.discr == Ident1
              then ptrGlob.intComp == intGlob + 12 && nextPtrGlob.intComp == 18
                   && (ptrGlob.enumComp == Ident3 ==> nextPtrGlob.enumComp == Ident2)
              else ptrGlob.intComp == nextPtrGlob.intComp == 5 && nextPtrGlob.enumComp == ptrGlob.enumComp
    {
      var nextRecord: Record := ptrVal.ptrComp;
      nextRecord.Assign(ptrGlob);
      ptrVal.intComp := 5;
      nextRecord.intComp := ptrVal.intComp;
      nextRecord.ptrComp := ptrVal.ptrComp;
      Proc3(nextRecord);
      if nextRecord.discr == Ident1 {
        nextRecord.intComp := 6;
        nextRecord.enumComp := Proc6(ptrVal.enumComp);
        nextRecord.ptrComp := ptrGlob.ptrComp;
        nextRecord.intComp := Proc7(nextRecord.intComp, 10);
      } else {
        ptrVal.Assign(nextRecord);
      }
    }

    method Proc8(int1: int, int2: int)
      requires Valid() && -4 <= int1 < 15
      modifies `intGlob, arr1Glob, arr2Glob
      ensures intGlob == 5
      ensures var l := int1 + 5;
              && arr1Glob[..] == old(arr1Glob[..])[l := int2][l + 1 := int2][l + 30 := l]
              && forall i, k :: 0 <= i < 50 && 0 <= k < 50 ==>
                   arr2Glob[i, k] == if i == l && (k == l || k == l + 1) then l
                                     else if i == l && k == l - 1 then Wrap32(old(arr2Glob[i, k]) + 1)
                                     else if i == l + 20 && k == l then int2
                                     else old(arr2Glob[i, k])
    {
      var intLoc := int1 + 5;
      arr1Glob[intLoc] := int2;
      arr1Glob[intLoc + 1] := arr1Glob[intLoc];
      arr1Glob[intLoc + 30] := intLoc;
      for intIndex := intLoc to intLoc + 2
        invariant arr1Glob[..] == old(arr1Glob[..])[intLoc := int2][intLoc + 1 := int2][intLoc + 30 := intLoc]
        invariant forall i, k :: 0 <= i < 50 && 0 <= k < 50 ==>
                    arr2Glob[i, k] == if i == intLoc && intLoc <= k < intIndex then intLoc else old(arr2Glob[i, k])
        modifies arr2Glob
      {
        arr2Glob[intLoc, intIndex] := intLoc;
      }
      arr2Glob[intLoc, intLoc - 1] := Wrap32(arr2Glob[intLoc, intLoc - 1] + 1);
      arr2Glob[intLoc + 20, intLoc] := arr1Glob[intLoc];
      intGlob := 5;
    }

    /** The measurement loop. After any number of runs but the largest int, every variable has the value it should, with
        the array element counting the runs as a 32-bit int does. */
    method Measure(texts: Texts, numberOfRuns: int) returns (locals: Locals)
      requires Valid() && Linked(texts.some) && InOrder(texts) && arr2Glob[8, 7] == 10
      requires 1 <= numberOfRuns < INT_MAX
      modifies this, ptrGlob, nextPtrGlob, arr1Glob, arr2Glob
      ensures Valid() && ptrGlob == old(ptrGlob) && nextPtrGlob == old(nextPtrGlob)
      ensures AsPrinted(texts.some) && nextPtrGlob.ptrComp == nextPtrGlob
      ensures arr2Glob[8, 7] == Wrap32(numberOfRuns + 10)
      ensures locals == Locals(5, 13, 7, Ident2, texts.first, texts.second)
    {
      var str1 := texts.first;
      var int1, int2, int3, enumLoc, str2 := 0, 0, 0, Ident1, "";
      var runIndex := 1;
      while runIndex <= numberOfRuns
        invariant 1 <= runIndex <= numberOfRuns + 1
        invariant Valid() && ptrGlob == old(ptrGlob) && nextPtrGlob == old(nextPtrGlob) && Linked(texts.some)
        invariant arr2Glob[8, 7] == Wrap32(9 + runIndex)
        invariant runIndex > 1 ==> AsPrinted(texts.some) && nextPtrGlob.ptrComp == nextPtrGlob
                                   && int1 == 5 && int2 == 13 && int3 == 7 && enumLoc == Ident2 && str2 == texts.second
      {
        int1, int2, int3, enumLoc, str2 := OneRun(texts, str1, runIndex);
        runIndex := runIndex + 1;
      }
      locals := Locals(int1, int2, int3, enumLoc, str1, str2);
    }

    /** The inner loop of the measurement: nothing happens as long as the character 'C' is not reached. */
    method Scan(enum0: Enumeration, str0: string, third: string, int0: int, runIndex: int)
      returns (enumLoc: Enumeration, str2: string, int2: int)
      requires ch2Glob <= 'Z'
      modifies `ch1Glob, `intGlob
      ensures ch2Glob < 'C' && enum0 != Ident1 ==>
                enumLoc == enum0 && str2 == str0 && int2 == int0 && ch1Glob == old(ch1Glob) && intGlob == old(intGlob)
    {
      enumLoc, str2, int2 := enum0, str0, int0;
      var chIndex := 'A';
      while chIndex <= ch2Glob
        invariant 'A' <= chIndex && (ch2Glob < 'A' || chIndex <= ch2Glob + 1 as char)
        invariant ch2Glob < 'C' && enum0 != Ident1 ==>
                    enumLoc == enum0 && str2 == str0 && int2 == int0 && ch1Glob == old(ch1Glob) && intGlob == old(intGlob)
        decreases '[' as int - chIndex as int
      {
        var found := Func1(chIndex, 'C');
        if enumLoc == found {
          enumLoc := Proc6(Ident1);
          str2 := third;
          int2 := runIndex;
          intGlob := runIndex;
        }
        chIndex := chIndex + 1 as char;
      }
    }

    /** One turn of the measurement loop. */
    method OneRun(texts: Texts, str1: string, runIndex: int)
      returns (int1: int, int2: int, int3: int, enumLoc: Enumeration, str2: string)
      requires Valid() && Linked(texts.some) && str1 == texts.first && InOrder(texts)
      modifies this, ptrGlob, nextPtrGlob, arr1Glob, arr2Glob
      ensures Valid() && ptrGlob == old(ptrGlob) && nextPtrGlob == old(nextPtrGlob)
      ensures Linked(texts.some) && AsPrinted(texts.some) && nextPtrGlob.ptrComp == nextPtrGlob
      ensures arr2Glob[8, 7] == Wrap32(old(arr2Glob[8, 7]) + 1)
      ensures int1 == 5 && int2 == 13 && int3 == 7 && enumLoc == Ident2 && str2 == texts.second
    {
      Proc5();
      Proc4();
      int1, int2, int3 := 2, 3, 0;
      str2 := texts.second;
      enumLoc := Ident2;
      var after := Func2(str1, str2);
      boolGlob := !after;
      while int1 < int2
        invariant int1 == 2 || (int1 == 3 && int3 == 7)
        modifies {}
      {
        int3 := 5 * int1 - int2;
        int3 := Proc7(int1, int2);
        int1 := int1 + 1;
      }
      Proc8(int1, int3);
      Proc1(ptrGlob);
      enumLoc, str2, int2 := Scan(enumLoc, str2, texts.third, int2, runIndex);
      int2 := int2 * int1;
      int1 := int2 / int3;
      int2 := 7 * (int2 - int3) - int1;
      int1 := Proc2(int1);
    }
  }

  /** The whole program, on its own strings: the values it prints are the ones it says should be there, and the count of
      the runs is, too, exactly when the sum fits an int. */
  method Benchmark(numberOfRuns: int) returns (globals: Dhrystone, locals: Locals)
    requires 1 <= numberOfRuns < INT_MAX
    ensures globals.Valid() && globals.AsPrinted("DHRYSTONE PROGRAM, SOME STRING")
    ensures globals.nextPtrGlob.ptrComp == globals.nextPtrGlob
    ensures globals.arr2Glob[8, 7] == numberOfRuns + 10 <==> numberOfRuns <= INT_MAX - 10
    ensures locals == Locals(5, 13, 7, Ident2, "DHRYSTONE PROGRAM, 1'ST STRING", "DHRYSTONE PROGRAM, 2'ND STRING")
  {
    TextsCompared(PROGRAM);
    TextsSpelledOut();
    var texts := TextsAfter(PROGRAM);
    globals := new Dhrystone(texts.some);
    locals := globals.Measure(texts, numberOfRuns);
    CountExactly(numberOfRuns);
  }

  lemma TextsSpelledOut()
    ensures var texts := TextsAfter(PROGRAM);
            && texts.some == "DHRYSTONE PROGRAM, SOME STRING"
            && texts.first == "DHRYSTONE PROGRAM, 1'ST STRING"
            && texts.second == "DHRYSTONE PROGRAM, 2'ND STRING"
            && texts.third == "DHRYSTONE PROGRAM, 3'RD STRING"
  {
  }

  /** strcmp is 0 for equal strings only, and otherwise tells how the first difference goes. */
  lemma {:induction false} StrCmpIsOrder(common: string, a: string, b: string)
    requires a == "" || b == "" || a[0] != b[0]
    ensures StrCmp(common + a, common + b) == 0 <==> a == b
    ensures StrCmp(common + a, common + b) < 0 <==> (a == "" && b != "") || (a != "" && b != "" && a[0] < b[0])
  {
    SkipCommon(common, a, b);
  }

  /** The two strings that the loop compares first differ at the digit. */
  lemma TextsCompared(program: string)
    requires |program| > 3 && program[2] != program[3]
    ensures InOrder(TextsAfter(program))
  {
    SkipCommon(program, "1'ST STRING", "2'ND STRING");
  }

  lemma {:induction false} SkipCommon(common: string, a: string, b: string)
    ensures StrCmp(common + a, common + b) == StrCmp(a, b)
  {
    if common == "" {
      assert common + a == a && common + b == b;
    } else {
      SkipCommon(common[1..], a, b);
      assert (common + a)[1..] == common[1..] + a && (common + b)[1..] == common[1..] + b;
    }
  }

  /** The element that counts the runs has the value it should exactly when the sum fits an int. */
  lemma CountExactly(numberOfRuns: int)
    requires 1 <= numberOfRuns <= INT_MAX
    ensures Wrap32(numberOfRuns + 10) == numberOfRuns + 10 <==> numberOfRuns <= INT_MAX - 10
  {
  }

  /** With 2^31 - 10 runs the printed count is negative. */
  lemma CountWraps()
    ensures Wrap32(INT_MAX - 9 + 10) == -INT_MAX - 1
  {
  }
}
