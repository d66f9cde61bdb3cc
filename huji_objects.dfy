/** The catalog's domain records: a lesson of a course's weekly schedule, an
    exam sitting and a course. Lesson and Exam are frozen records; a Course is
    a record too, whose `exams` field the scraper fills in after parsing
    (modelled as a record update). Equality of all three is field by field. */
module HujiObjects {
  import opened Wrappers
  import opened Text

  /** One scheduled meeting of a course. `time` holds "end-start", as the
      catalog prints it; `row` is the schedule block the lesson came from. */
  datatype Lesson = Lesson(
    location: string,
    passingType: string,     // in the hall, recorded, ...
    time: string,
    day: string,
    semester: string,
    group: string,
    lessonType: string,      // lecture, exercise, ...
    lecturers: seq<string>,
    row: int)
  {
    function StartTime(): string {
      SplitTime(time).0
    }

    function EndTime(): string {
      SplitTime(time).1
    }
  }

  /** One exam sitting; `moed` names the sitting (first, retake, ...). */
  datatype Exam = Exam(
    date: string,
    hour: string,
    notes: string,
    location: string,
    moed: string,
    semester: string)

  /** One catalog entry. `exams` is None until the exam page is attached. */
  datatype Course = Course(
    courseId: string,
    hebrewName: string,
    englishName: string,
    department: string,
    faculty: string,
    semester: string,
    weeklyHours: int,
    credits: int,
    language: string,
    examType: string,
    schedule: seq<Lesson>,
    exams: Option<seq<Exam>>,
    hebrewNotes: string,
    englishNotes: string,
    isRunning: bool,
    syllabusUrl: string,
    moodleUrl: string)

  /** The (start, end) pair of an "end-start" time text. */
  function SplitTime(time: string): (r: (string, string))
    ensures '-' !in r.0 && '-' !in r.1
  {
    var parts := Split(time, '-');
    SplitPieces(time, '-');
    if |parts| == 2 then (parts[1], parts[0]) else ("", "")
  }

  /** Exactly one `-` is needed: the start is then the text after it and the
      end the text before it. With none (the empty time included) or with
      several, the two-way unpacking of the split fails and both parts are
      empty. */
  lemma SplitTimeSpec(time: string)
    ensures var r := SplitTime(time);
      if multiset(time)['-'] == 1 then r.1 + "-" + r.0 == time && '-' !in r.0 && '-' !in r.1
      else r == ("", "")
  {
    var parts := Split(time, '-');
    SplitCount(time, '-');
    if |parts| == 2 {
      JoinSplit(time, '-');
      assert Join(parts, '-') == parts[0] + "-" + parts[1];
    }
  }

  /** With exactly one `-`, at index `i`, the start is the text after it and
      the end the text before it. */
  lemma SplitTimeAt(time: string, i: nat)
    requires i < |time| && time[i] == '-'
    requires forall j :: 0 <= j < |time| && j != i ==> time[j] != '-'
    ensures SplitTime(time) == (time[i + 1..], time[..i])
  {
    assert time == time[..i] + [time[i]] + time[i + 1..];
    assert '-' !in time[..i] && '-' !in time[i + 1..];
    assert multiset(time)['-'] == 1;
    var r := SplitTime(time);
    SplitTimeSpec(time);
    var k := |r.1|;
    assert time[k] == '-';
    assert time[..k] == r.1 && time[k + 1..] == r.0;
  }
}
