/** The order in which a course's schedule is stored: Python's stable `sorted`
    with the key (semester, day, start time, end time, passing type, location),
    every component compared as plain text (code point by code point, a prefix
    first), not as a calendar day or a clock time. */
module LessonOrder {
  import opened HujiObjects

  /** Python's comparison of two strings: -1, 0 or 1. */
  function StrCmp(a: string, b: string): (r: int)
    ensures -1 <= r <= 1
  {
    if a == [] && b == [] then 0
    else if a == [] then -1
    else if b == [] then 1
    else if a[0] < b[0] then -1
    else if a[0] > b[0] then 1
    else StrCmp(a[1..], b[1..])
  }

  lemma {:induction false} StrCmpEq(a: string, b: string)
    ensures StrCmp(a, b) == 0 <==> a == b
  {
    if a != [] && b != [] && a[0] == b[0] {
      StrCmpEq(a[1..], b[1..]);
      assert a == [a[0]] + a[1..] && b == [b[0]] + b[1..];
    }
  }

  lemma {:induction false} StrCmpFlip(a: string, b: string)
    ensures StrCmp(a, b) == -StrCmp(b, a)
  {
    if a != [] && b != [] && a[0] == b[0] {
      StrCmpFlip(a[1..], b[1..]);
    }
  }

  lemma {:induction false} StrCmpTrans(a: string, b: string, c: string)
    requires StrCmp(a, b) <= 0 && StrCmp(b, c) <= 0
    ensures StrCmp(a, c) <= 0
  {
    if a != [] && b != [] && c != [] && a[0] == b[0] == c[0] {
      StrCmpTrans(a[1..], b[1..], c[1..]);
    }
  }

  /** Python's comparison of two tuples of strings: -1, 0 or 1. */
  function KeyCmp(x: seq<string>, y: seq<string>): (r: int)
    ensures -1 <= r <= 1
  {
    if x == [] && y == [] then 0
    else if x == [] then -1
    else if y == [] then 1
    else if StrCmp(x[0], y[0]) != 0 then StrCmp(x[0], y[0])
    else KeyCmp(x[1..], y[1..])
  }

  lemma {:induction false} KeyCmpEq(x: seq<string>, y: seq<string>)
    ensures KeyCmp(x, y) == 0 <==> x == y
  {
    if x != [] && y != [] {
      StrCmpEq(x[0], y[0]);
      KeyCmpEq(x[1..], y[1..]);
      assert x == [x[0]] + x[1..] && y == [y[0]] + y[1..];
    }
  }

  lemma {:induction false} KeyCmpFlip(x: seq<string>, y: seq<string>)
    ensures KeyCmp(x, y) == -KeyCmp(y, x)
  {
    if x != [] && y != [] {
      StrCmpFlip(x[0], y[0]);
      KeyCmpFlip(x[1..], y[1..]);
    }
  }

  lemma {:induction false} KeyCmpTrans(x: seq<string>, y: seq<string>, z: seq<string>)
    requires KeyCmp(x, y) <= 0 && KeyCmp(y, z) <= 0
    ensures KeyCmp(x, z) <= 0
  {
    if x != [] && y != [] && z != [] {
      StrCmpEq(x[0], y[0]);
      StrCmpEq(y[0], z[0]);
      StrCmpFlip(x[0], y[0]);
      StrCmpFlip(y[0], z[0]);
      if StrCmp(x[0], y[0]) == 0 && StrCmp(y[0], z[0]) == 0 {
        KeyCmpTrans(x[1..], y[1..], z[1..]);
      } else {
        StrCmpTrans(x[0], y[0], z[0]);
        StrCmpEq(x[0], z[0]);
      }
    }
  }

  /** Tuples of equal length are ordered by their first differing component. */
  lemma {:induction false} KeyCmpAt(x: seq<string>, y: seq<string>, i: nat)
    requires |x| == |y| && i < |x| && x[..i] == y[..i] && x[i] != y[i]
    ensures KeyCmp(x, y) == StrCmp(x[i], y[i]) != 0
  {
    StrCmpEq(x[i], y[i]);
    if i == 0 {
    } else {
      assert x[0] == x[..i][0] == y[..i][0] == y[0];
      StrCmpEq(x[0], y[0]);
      assert x[1..][..i - 1] == x[..i][1..] == y[..i][1..] == y[1..][..i - 1];
      KeyCmpAt(x[1..], y[1..], i - 1);
    }
  }

  /** The sort key of `_sort_lessons`. */
  function Key(l: Lesson): seq<string> {
    [l.semester, l.day, l.StartTime(), l.EndTime(), l.passingType, l.location]
  }

  predicate LessonLe(a: Lesson, b: Lesson) {
    KeyCmp(Key(a), Key(b)) <= 0
  }

  /** Same semester, different days: the day decides. */
  lemma DayDecides(a: Lesson, b: Lesson)
    requires a.semester == b.semester && a.day != b.day
    ensures LessonLe(a, b) <==> StrCmp(a.day, b.day) < 0
  {
    KeyCmpAt(Key(a), Key(b), 1);
  }

  /** Same semester and day, different start times: the start decides. */
  lemma StartDecides(a: Lesson, b: Lesson)
    requires a.semester == b.semester && a.day == b.day && a.StartTime() != b.StartTime()
    ensures LessonLe(a, b) <==> StrCmp(a.StartTime(), b.StartTime()) < 0
  {
    KeyCmpAt(Key(a), Key(b), 2);
  }

  /** Same semester, day and start, different ends: the end decides. */
  lemma EndDecides(a: Lesson, b: Lesson)
    requires a.semester == b.semester && a.day == b.day && a.StartTime() == b.StartTime()
    requires a.EndTime() != b.EndTime()
    ensures LessonLe(a, b) <==> StrCmp(a.EndTime(), b.EndTime()) < 0
  {
    KeyCmpAt(Key(a), Key(b), 3);
  }

  /** Ordered by key, every pair and not only neighbours. */
  predicate Sorted(s: seq<Lesson>) {
    forall i, j :: 0 <= i < j < |s| ==> LessonLe(s[i], s[j])
  }

  /** The lessons of `s` whose key is `k`, in their order in `s`. */
  function WithKey(s: seq<Lesson>, k: seq<string>): seq<Lesson> {
    if s == [] then [] else (if Key(s[0]) == k then [s[0]] else []) + WithKey(s[1..], k)
  }

  /** Places `x` before the first lesson whose key is not smaller than its own. */
  function Insert(x: Lesson, t: seq<Lesson>): seq<Lesson> {
    if t == [] || LessonLe(x, t[0]) then [x] + t else [t[0]] + Insert(x, t[1..])
  }

  /** `_sort_lessons`: a stable sort of the lessons by Key. The input is a
      value, so it is left as it was. */
  function SortLessons(s: seq<Lesson>): seq<Lesson> {
    if s == [] then [] else Insert(s[0], SortLessons(s[1..]))
  }

  lemma {:induction false} InsertPermutes(x: Lesson, t: seq<Lesson>)
    ensures multiset(Insert(x, t)) == multiset([x]) + multiset(t)
  {
    if t != [] && !LessonLe(x, t[0]) {
      InsertPermutes(x, t[1..]);
      assert t == [t[0]] + t[1..];
    }
  }

  /** `b` is not above any lesson of `t`. */
  predicate Below(b: Lesson, t: seq<Lesson>) {
    forall j :: 0 <= j < |t| ==> LessonLe(b, t[j])
  }

  lemma {:induction false} InsertBelow(b: Lesson, x: Lesson, t: seq<Lesson>)
    requires Below(b, t) && LessonLe(b, x)
    ensures Below(b, Insert(x, t))
  {
    if t != [] && !LessonLe(x, t[0]) {
      InsertBelow(b, x, t[1..]);
    }
  }

  lemma LeTrans(a: Lesson, b: Lesson, c: Lesson)
    requires LessonLe(a, b) && LessonLe(b, c)
    ensures LessonLe(a, c)
  {
    KeyCmpTrans(Key(a), Key(b), Key(c));
  }

  lemma LeTotal(a: Lesson, b: Lesson)
    ensures LessonLe(a, b) || LessonLe(b, a)
  {
    KeyCmpFlip(Key(a), Key(b));
  }

  lemma ConsSorted(b: Lesson, t: seq<Lesson>)
    requires Below(b, t) && Sorted(t)
    ensures Sorted([b] + t)
  {
    var r := [b] + t;
    forall i, j | 0 <= i < j < |r| ensures LessonLe(r[i], r[j]) {
      assert r[j] == t[j - 1];
      if i > 0 { assert r[i] == t[i - 1]; }
    }
  }

  lemma {:induction false} InsertSorted(x: Lesson, t: seq<Lesson>)
    requires Sorted(t)
    ensures Sorted(Insert(x, t))
  {
    if t == [] {
    } else if LessonLe(x, t[0]) {
      forall j | 0 <= j < |t| ensures LessonLe(x, t[j]) {
        if j > 0 { LeTrans(x, t[0], t[j]); }
      }
      ConsSorted(x, t);
    } else {
      InsertSorted(x, t[1..]);
      LeTotal(x, t[0]);
      InsertBelow(t[0], x, t[1..]);
      ConsSorted(t[0], Insert(x, t[1..]));
    }
  }

  lemma {:induction false} InsertWithKey(x: Lesson, t: seq<Lesson>, k: seq<string>)
    ensures WithKey(Insert(x, t), k) == (if Key(x) == k then [x] else []) + WithKey(t, k)
  {
    if t == [] || LessonLe(x, t[0]) {
      assert Insert(x, t)[1..] == t;
    } else {
      InsertWithKey(x, t[1..], k);
      KeyCmpEq(Key(x), Key(t[0]));
      assert Insert(x, t)[1..] == Insert(x, t[1..]);
    }
  }

  /** The result of `_sort_lessons` is ordered by the key. */
  lemma {:induction false} SortLessonsSorted(s: seq<Lesson>)
    ensures Sorted(SortLessons(s))
  {
    if s != [] {
      SortLessonsSorted(s[1..]);
      InsertSorted(s[0], SortLessons(s[1..]));
    }
  }

  /** The result of `_sort_lessons` holds the same lessons, as many times each. */
  lemma {:induction false} SortLessonsPermutes(s: seq<Lesson>)
    ensures multiset(SortLessons(s)) == multiset(s)
  {
    if s != [] {
      SortLessonsPermutes(s[1..]);
      InsertPermutes(s[0], SortLessons(s[1..]));
      assert s == [s[0]] + s[1..];
    }
  }

  /** Stability: lessons with equal keys keep their input order. */
  lemma {:induction false} SortLessonsStable(s: seq<Lesson>, k: seq<string>)
    ensures WithKey(SortLessons(s), k) == WithKey(s, k)
  {
    if s != [] {
      SortLessonsStable(s[1..], k);
      InsertWithKey(s[0], SortLessons(s[1..]), k);
    }
  }
}
