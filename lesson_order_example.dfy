/** The lesson order worked out on the nine lessons of the repository's
    sorting test (tests/test_html_to_object.py): one course, semester A,
    group (א), a lecture recorded in the hall, on five week days in two halls. */
module LessonOrderExample {
  import opened HujiObjects
  import opened LessonOrder

  const HallA := "פלדמן א (קרית א\"י ספרא)"
  const HallB := "פלדמן ב (קרית א\"י ספרא)"

  /** A lesson of the sample whose time text is `end-start`. */
  function Sample(end: string, start: string, day: string, location: string): Lesson {
    Lesson(location, "באולם ומוקלט", end + "-" + start, day, "A", "(א)", "שעור", ["ד\"ר "], 0)
  }

  const L1 := Sample("15:45", "14:00", "יום ה'", HallA)
  const L2 := Sample("14:45", "13:00", "יום ה'", HallA)
  const L3 := Sample("13:45", "12:00", "יום ב'", HallA)
  const L4 := Sample("18:45", "18:00", "יום א'", HallB)
  const L5 := Sample("15:45", "14:00", "יום א'", HallA)
  const L6 := Sample("15:45", "14:00", "יום ב'", HallA)
  const L7 := Sample("15:45", "14:00", "יום ג'", HallA)
  const L8 := Sample("15:45", "14:00", "יום ד'", HallA)
  const L9 := Sample("14:45", "14:00", "יום ב'", HallA)

  /** The start and end of a sample lesson are the texts it was built from. */
  lemma TimeOf(l: Lesson, end: string, start: string)
    requires l.time == end + "-" + start && '-' !in end && '-' !in start
    ensures l.StartTime() == start && l.EndTime() == end
  {
    var t := l.time;
    forall j | 0 <= j < |t| && j != |end| ensures t[j] != '-' {
      if j < |end| { assert t[j] == end[j]; } else { assert t[j] == start[j - |end| - 1]; }
    }
    SplitTimeAt(t, |end|);
    assert t[..|end|] == end && t[|end| + 1..] == start;
  }

  /** `x` goes in front of the first lesson that is not below it. */
  lemma {:induction false} InsertAfter(x: Lesson, p: seq<Lesson>, t: seq<Lesson>)
    requires forall i :: 0 <= i < |p| ==> !LessonLe(x, p[i])
    requires t == [] || LessonLe(x, t[0])
    ensures Insert(x, p + t) == p + [x] + t
  {
    if p != [] {
      var s := p + t;
      assert s[0] == p[0] && s[1..] == p[1..] + t;
      assert !LessonLe(x, s[0]);
      InsertAfter(x, p[1..], t);
      assert Insert(x, s) == [p[0]] + Insert(x, p[1..] + t);
      assert [p[0]] + (p[1..] + [x] + t) == p + [x] + t;
    } else {
      assert p + t == t;
    }
  }

  lemma L8AfterL9() ensures !LessonLe(L8, L9) { DayDecides(L8, L9); }
  lemma L7AfterL9() ensures !LessonLe(L7, L9) { DayDecides(L7, L9); }
  lemma L7BeforeL8() ensures LessonLe(L7, L8) { DayDecides(L7, L8); }
  lemma L5BeforeL9() ensures LessonLe(L5, L9) { DayDecides(L5, L9); }

  lemma Step8()
    ensures Insert(L8, [L9]) == [L9, L8]
  {
    L8AfterL9();
    InsertAfter(L8, [L9], []);
  }

  lemma Step7()
    ensures Insert(L7, [L9, L8]) == [L9, L7, L8]
  {
    L7AfterL9();
    L7BeforeL8();
    InsertAfter(L7, [L9], [L8]);
  }

  lemma L6AfterL9() ensures !LessonLe(L6, L9) {
    TimeOf(L6, "15:45", "14:00");
    TimeOf(L9, "14:45", "14:00");
    EndDecides(L6, L9);
  }
  lemma L6BeforeL7() ensures LessonLe(L6, L7) { DayDecides(L6, L7); }

  lemma Step6()
    ensures Insert(L6, [L9, L7, L8]) == [L9, L6, L7, L8]
  {
    L6AfterL9();
    L6BeforeL7();
    InsertAfter(L6, [L9], [L7, L8]);
  }

  lemma Step5()
    ensures Insert(L5, [L9, L6, L7, L8]) == [L5, L9, L6, L7, L8]
  {
    L5BeforeL9();
    InsertAfter(L5, [], [L9, L6, L7, L8]);
  }

  lemma L4AfterL5() ensures !LessonLe(L4, L5) {
    TimeOf(L4, "18:45", "18:00");
    TimeOf(L5, "15:45", "14:00");
    StartDecides(L4, L5);
  }
  lemma L4BeforeL9() ensures LessonLe(L4, L9) { DayDecides(L4, L9); }

  lemma Step4()
    ensures Insert(L4, [L5, L9, L6, L7, L8]) == [L5, L4, L9, L6, L7, L8]
  {
    L4AfterL5();
    L4BeforeL9();
    InsertAfter(L4, [L5], [L9, L6, L7, L8]);
  }

  lemma L3AfterL5() ensures !LessonLe(L3, L5) { DayDecides(L3, L5); }
  lemma L3AfterL4() ensures !LessonLe(L3, L4) { DayDecides(L3, L4); }
  lemma L3BeforeL9() ensures LessonLe(L3, L9) {
    TimeOf(L3, "13:45", "12:00");
    TimeOf(L9, "14:45", "14:00");
    StartDecides(L3, L9);
  }

  lemma Step3()
    ensures Insert(L3, [L5, L4, L9, L6, L7, L8]) == [L5, L4, L3, L9, L6, L7, L8]
  {
    L3AfterL5(); L3AfterL4(); L3BeforeL9();
    var p := [L5, L4];
    forall i | 0 <= i < |p| ensures !LessonLe(L3, p[i]) {
      if i == 0 {} else {}
    }
    InsertAfter(L3, p, [L9, L6, L7, L8]);
    assert p + [L3] + [L9, L6, L7, L8] == [L5, L4, L3, L9, L6, L7, L8];
  }

  lemma L2AfterL5() ensures !LessonLe(L2, L5) { DayDecides(L2, L5); }
  lemma L2AfterL4() ensures !LessonLe(L2, L4) { DayDecides(L2, L4); }
  lemma L2AfterL3() ensures !LessonLe(L2, L3) { DayDecides(L2, L3); }
  lemma L2AfterL9() ensures !LessonLe(L2, L9) { DayDecides(L2, L9); }
  lemma L2AfterL6() ensures !LessonLe(L2, L6) { DayDecides(L2, L6); }
  lemma L2AfterL7() ensures !LessonLe(L2, L7) { DayDecides(L2, L7); }
  lemma L2AfterL8() ensures !LessonLe(L2, L8) { DayDecides(L2, L8); }

  lemma Step2()
    ensures Insert(L2, [L5, L4, L3, L9, L6, L7, L8]) == [L5, L4, L3, L9, L6, L7, L8, L2]
  {
    L2AfterL5(); L2AfterL4(); L2AfterL3(); L2AfterL9(); L2AfterL6(); L2AfterL7(); L2AfterL8();
    var p := [L5, L4, L3, L9, L6, L7, L8];
    forall i | 0 <= i < |p| ensures !LessonLe(L2, p[i]) {
      if i == 0 {} else if i == 1 {} else if i == 2 {} else if i == 3 {}
      else if i == 4 {} else if i == 5 {} else {}
    }
    assert p + [] == p;
    InsertAfter(L2, p, []);
    assert p + [L2] + [] == [L5, L4, L3, L9, L6, L7, L8, L2];
  }

  lemma L1AfterL5() ensures !LessonLe(L1, L5) { DayDecides(L1, L5); }
  lemma L1AfterL4() ensures !LessonLe(L1, L4) { DayDecides(L1, L4); }
  lemma L1AfterL3() ensures !LessonLe(L1, L3) { DayDecides(L1, L3); }
  lemma L1AfterL9() ensures !LessonLe(L1, L9) { DayDecides(L1, L9); }
  lemma L1AfterL6() ensures !LessonLe(L1, L6) { DayDecides(L1, L6); }
  lemma L1AfterL7() ensures !LessonLe(L1, L7) { DayDecides(L1, L7); }
  lemma L1AfterL8() ensures !LessonLe(L1, L8) { DayDecides(L1, L8); }
  lemma L1AfterL2() ensures !LessonLe(L1, L2) {
    TimeOf(L1, "15:45", "14:00");
    TimeOf(L2, "14:45", "13:00");
    StartDecides(L1, L2);
  }

  lemma Step1()
    ensures Insert(L1, [L5, L4, L3, L9, L6, L7, L8, L2]) == [L5, L4, L3, L9, L6, L7, L8, L2, L1]
  {
    L1AfterL5(); L1AfterL4(); L1AfterL3(); L1AfterL9(); L1AfterL6(); L1AfterL7(); L1AfterL8(); L1AfterL2();
    var p := [L5, L4, L3, L9, L6, L7, L8, L2];
    forall i | 0 <= i < |p| ensures !LessonLe(L1, p[i]) {
      if i == 0 {} else if i == 1 {} else if i == 2 {} else if i == 3 {}
      else if i == 4 {} else if i == 5 {} else if i == 6 {} else {}
    }
    assert p + [] == p;
    InsertAfter(L1, p, []);
    assert p + [L1] + [] == [L5, L4, L3, L9, L6, L7, L8, L2, L1];
  }

  lemma SortCons(x: Lesson, t: seq<Lesson>)
    ensures SortLessons([x] + t) == Insert(x, SortLessons(t))
  {
    assert ([x] + t)[1..] == t;
  }

  lemma SortFrom9()
    ensures SortLessons([L9]) == [L9]
  {
    SortCons(L9, []);
    assert [L9] + [] == [L9];
    InsertAfter(L9, [], []);
  }

  lemma SortFrom8()
    ensures SortLessons([L8, L9]) == [L9, L8]
  {
    SortCons(L8, [L9]);
    assert [L8] + [L9] == [L8, L9];
    SortFrom9();
    Step8();
  }

  lemma SortFrom7()
    ensures SortLessons([L7, L8, L9]) == [L9, L7, L8]
  {
    SortCons(L7, [L8, L9]);
    assert [L7] + [L8, L9] == [L7, L8, L9];
    SortFrom8();
    Step7();
  }

  lemma SortFrom6()
    ensures SortLessons([L6, L7, L8, L9]) == [L9, L6, L7, L8]
  {
    SortCons(L6, [L7, L8, L9]);
    assert [L6] + [L7, L8, L9] == [L6, L7, L8, L9];
    SortFrom7();
    Step6();
  }

  lemma SortFrom5()
    ensures SortLessons([L5, L6, L7, L8, L9]) == [L5, L9, L6, L7, L8]
  {
    SortCons(L5, [L6, L7, L8, L9]);
    assert [L5] + [L6, L7, L8, L9] == [L5, L6, L7, L8, L9];
    SortFrom6();
    Step5();
  }

  lemma SortFrom4()
    ensures SortLessons([L4, L5, L6, L7, L8, L9]) == [L5, L4, L9, L6, L7, L8]
  {
    SortCons(L4, [L5, L6, L7, L8, L9]);
    assert [L4] + [L5, L6, L7, L8, L9] == [L4, L5, L6, L7, L8, L9];
    SortFrom5();
    Step4();
  }

  lemma SortFrom3()
    ensures SortLessons([L3, L4, L5, L6, L7, L8, L9]) == [L5, L4, L3, L9, L6, L7, L8]
  {
    SortCons(L3, [L4, L5, L6, L7, L8, L9]);
    assert [L3] + [L4, L5, L6, L7, L8, L9] == [L3, L4, L5, L6, L7, L8, L9];
    SortFrom4();
    Step3();
  }

  lemma SortFrom2()
    ensures SortLessons([L2, L3, L4, L5, L6, L7, L8, L9]) == [L5, L4, L3, L9, L6, L7, L8, L2]
  {
    SortCons(L2, [L3, L4, L5, L6, L7, L8, L9]);
    assert [L2] + [L3, L4, L5, L6, L7, L8, L9] == [L2, L3, L4, L5, L6, L7, L8, L9];
    SortFrom3();
    Step2();
  }

  /** The expected order of the repository's sorting test: by day first
      (א before ב before ג ...), then by start time, then by end time. */
  lemma SortSample()
    ensures SortLessons([L1, L2, L3, L4, L5, L6, L7, L8, L9]) == [L5, L4, L3, L9, L6, L7, L8, L2, L1]
  {
    SortCons(L1, [L2, L3, L4, L5, L6, L7, L8, L9]);
    assert [L1] + [L2, L3, L4, L5, L6, L7, L8, L9] == [L1, L2, L3, L4, L5, L6, L7, L8, L9];
    SortFrom2();
    Step1();
  }
}
