/** The catalog's current page layout turned into records: one course page
    into a Course (its header fields and its schedule, built row by row and
    then sorted), a search-results page into its courses, and an exam-dates
    table into Exams. */
module HtmlToCourse {
  import opened Wrappers
  import opened Text
  import opened HujiObjects
  import opened LessonOrder
  import opened Pages

  const ShnatonOrigin := "https://shnaton.huji.ac.il"
  const OpenUrlCall := "javascript:OpenUrl("

  // ------------------------------------------------------- schedule rows

  /** The columns of one schedule row after the list comprehensions. */
  datatype Columns = Columns(
    lecturers: seq<string>,
    groups: seq<string>,
    semesters: seq<string>,
    days: seq<string>,
    hours: seq<string>,
    lessonTypes: seq<string>,
    places: seq<string>,
    notes: seq<string>)

  /** The texts that are not blank, kept as they are (the hour column). */
  function NonBlank(ts: seq<string>): (r: seq<string>)
    ensures |r| <= |ts|
    ensures forall i :: 0 <= i < |r| ==> r[i] in ts && !AllSpace(r[i])
    ensures forall t :: t in ts && !AllSpace(t) ==> t in r
  {
    if ts == [] then []
    else
      StripBlank(ts[0]);
      assert forall t :: t in ts ==> t == ts[0] || t in ts[1..];
      (if Strip(ts[0]) != [] then [ts[0]] else []) + NonBlank(ts[1..])
  }

  /** The stripped texts that are not blank (the note column). */
  function StrippedNonBlank(ts: seq<string>): (r: seq<string>)
    ensures |r| <= |ts|
    ensures forall i :: 0 <= i < |r| ==> r[i] != [] && !IsSpace(r[i][0]) && !IsSpace(r[i][|r[i]| - 1])
  {
    if ts == [] then []
    else (if Strip(ts[0]) != [] then [Strip(ts[0])] else []) + StrippedNonBlank(ts[1..])
  }

  /** `NonBlank` is a filter: it keeps the non-blank texts of each part of
      its input, in order, and a single text exactly when it is not blank. */
  lemma {:induction false} NonBlankFilter(a: seq<string>, b: seq<string>)
    ensures NonBlank(a + b) == NonBlank(a) + NonBlank(b)
  {
    if a == [] {
      assert a + b == b;
    } else {
      assert (a + b)[1..] == a[1..] + b;
      NonBlankFilter(a[1..], b);
    }
  }

  lemma NonBlankSingle(t: string)
    ensures NonBlank([t]) == if AllSpace(t) then [] else [t]
  {
    StripBlank(t);
    assert [t][1..] == [];
  }

  /** `StrippedNonBlank` is the same filter followed by stripping each kept
      text. */
  lemma {:induction false} StrippedNonBlankFilter(ts: seq<string>)
    ensures StrippedNonBlank(ts) == StripEach(NonBlank(ts))
  {
    if ts != [] {
      var rest := NonBlank(ts[1..]);
      StrippedNonBlankFilter(ts[1..]);
      if Strip(ts[0]) != [] {
        assert NonBlank(ts) == [ts[0]] + rest;
        assert StripEach([ts[0]] + rest) == [Strip(ts[0])] + StripEach(rest);
      } else {
        assert NonBlank(ts) == rest;
      }
    }
  }

  /** The lecturer list of a row: at most one name, stripped and without
      line breaks, and none when the name is missing or blank. */
  function Lecturers(name: Option<string>): (r: seq<string>)
    ensures |r| <= 1
    ensures r == [] <==> name == None || AllSpace(name.value)
    ensures r != [] ==> '\n' !in r[0]
    ensures r != [] ==> r[0] == RemoveChar(Strip(name.value), '\n')
  {
    StripBlank(name.GetOr(""));
    if name.Some? && Strip(name.value) != [] then [RemoveChar(Strip(name.value), '\n')] else []
  }

  function ColumnsOf(row: ScheduleRow): Columns {
    Columns(
      Lecturers(row.lecturerName),
      row.groups.GetOr([]),
      row.semesters.GetOr([]),
      row.days.GetOr([]),
      NonBlank(row.hours.GetOr([])),
      row.lessonTypes.GetOr([]),
      StripEach(row.places.GetOr([])),
      StrippedNonBlank(row.notes.GetOr([])))
  }

  function Max(a: nat, b: nat): nat {
    if a < b then b else a
  }

  /** The number of lessons in a row: the longest of the semester, day,
      hour and place columns. */
  function RowCount(c: Columns): (n: nat)
    ensures n >= |c.semesters| && n >= |c.days| && n >= |c.hours| && n >= |c.places|
    ensures n == |c.semesters| || n == |c.days| || n == |c.hours| || n == |c.places|
  {
    Max(Max(|c.semesters|, |c.days|), Max(|c.hours|, |c.places|))
  }

  /** Element `i`, or the empty text when the column is shorter. */
  function At(column: seq<string>, i: nat): string {
    if i < |column| then column[i] else ""
  }

  /** Lesson `i` of a row numbered `rowNum`. */
  function LessonAt(c: Columns, rowNum: nat, i: nat): Lesson {
    Lesson(
      location := At(c.places, i),
      passingType := At(c.notes, i),
      time := At(c.hours, i),
      day := At(c.days, i),
      semester := At(c.semesters, i),
      group := At(c.groups, 0),
      lessonType := At(c.lessonTypes, 0),
      lecturers := c.lecturers,
      row := rowNum)
  }

  /** The lessons of one row, in column order. */
  function RowLessons(c: Columns, rowNum: nat): (r: seq<Lesson>)
    ensures |r| == RowCount(c)
    ensures forall i :: 0 <= i < |r| ==> r[i].row == rowNum && r[i].lecturers == c.lecturers
  {
    seq(RowCount(c), i requires 0 <= i < RowCount(c) => LessonAt(c, rowNum, i))
  }

  /** The lessons of the rows after the title row, row by row; the row after
      the title row is numbered 0. */
  function RowsLessons(body: seq<ScheduleRow>): seq<Lesson> {
    if body == [] then []
    else RowsLessons(body[..|body| - 1]) + RowLessons(ColumnsOf(body[|body| - 1]), |body| - 1)
  }

  /** The schedule before sorting. */
  function UnsortedSchedule(rows: seq<ScheduleRow>): seq<Lesson> {
    if rows == [] then [] else RowsLessons(rows[1..])
  }

  /** The sum of the row counts. */
  function TotalCount(body: seq<ScheduleRow>): nat {
    if body == [] then 0 else TotalCount(body[..|body| - 1]) + RowCount(ColumnsOf(body[|body| - 1]))
  }

  /** The inner loop: the lessons of one row appended, one per index up to
      the row's count. */
  method AppendRowLessons(schedule: seq<Lesson>, c: Columns, rowNum: nat) returns (extended: seq<Lesson>)
    ensures extended == schedule + RowLessons(c, rowNum)
  {
    var maxItems := RowCount(c);
    ghost var lessons := RowLessons(c, rowNum);
    extended := schedule;
    var i := 0;
    while i < maxItems
      invariant 0 <= i <= maxItems
      invariant extended == schedule + lessons[..i]
    {
      var lesson := LessonAt(c, rowNum, i);
      assert lessons[..i + 1] == lessons[..i] + [lesson];
      extended := extended + [lesson];
      i := i + 1;
    }
    assert lessons[..maxItems] == lessons;
  }

  /** The nested loop that appends the lessons of every row after the title
      row to `schedule`. */
  method BuildSchedule(rows: seq<ScheduleRow>) returns (schedule: seq<Lesson>)
    ensures schedule == UnsortedSchedule(rows)
  {
    schedule := [];
    if rows == [] {
      return;
    }
    var body := rows[1..];
    var rowNum := 0;
    while rowNum < |body|
      invariant 0 <= rowNum <= |body|
      invariant schedule == RowsLessons(body[..rowNum])
    {
      schedule := AppendRowLessons(schedule, ColumnsOf(body[rowNum]), rowNum);
      RowsLessonsNext(body, rowNum);
      rowNum := rowNum + 1;
    }
    assert body[..|body|] == body;
  }

  lemma RowsLessonsNext(body: seq<ScheduleRow>, n: nat)
    requires n < |body|
    ensures RowsLessons(body[..n + 1]) == RowsLessons(body[..n]) + RowLessons(ColumnsOf(body[n]), n)
  {
    var front := body[..n + 1];
    assert front[..|front| - 1] == body[..n];
    assert front[|front| - 1] == body[n];
  }

  // ----------------------------------------------------- row properties

  /** Lesson `i` takes element `i` of the semester, day, hour, place and
      note columns, or the empty text past a column's end, and the first
      group and lesson type, or the empty text when there is none. */
  lemma RowLessonFields(c: Columns, rowNum: nat, i: nat)
    requires i < RowCount(c)
    ensures var l := RowLessons(c, rowNum)[i];
      && l.semester == (if i < |c.semesters| then c.semesters[i] else "")
      && l.day == (if i < |c.days| then c.days[i] else "")
      && l.time == (if i < |c.hours| then c.hours[i] else "")
      && l.location == (if i < |c.places| then c.places[i] else "")
      && l.passingType == (if i < |c.notes| then c.notes[i] else "")
      && l.group == (if c.groups == [] then "" else c.groups[0])
      && l.lessonType == (if c.lessonTypes == [] then "" else c.lessonTypes[0])
  {
  }

  /** The group, lesson type and note columns never change the lesson
      count, and a row whose four counted columns are empty has no lesson. */
  lemma RowCountColumns(c: Columns, groups: seq<string>, types: seq<string>, notes: seq<string>)
    ensures RowCount(c.(groups := groups, lessonTypes := types, notes := notes)) == RowCount(c)
    ensures RowLessons(c, 0) == [] <==> c.semesters == [] && c.days == [] && c.hours == [] && c.places == []
  {
  }

  /** The schedule has one lesson per counted row entry. */
  lemma {:induction false} ScheduleLength(body: seq<ScheduleRow>)
    ensures |RowsLessons(body)| == TotalCount(body)
  {
    if body != [] {
      ScheduleLength(body[..|body| - 1]);
    }
  }

  /** Every lesson of the schedule names the row it came from (counted from
      the row after the title row) and carries that row's lecturers. */
  lemma {:induction false} ScheduleRows(body: seq<ScheduleRow>)
    ensures forall l :: l in RowsLessons(body) ==>
      0 <= l.row < |body| && l.lecturers == ColumnsOf(body[l.row]).lecturers
  {
    if body != [] {
      var front := body[..|body| - 1];
      ScheduleRows(front);
      var c := ColumnsOf(body[|body| - 1]);
      forall l | l in RowsLessons(body)
        ensures 0 <= l.row < |body| && l.lecturers == ColumnsOf(body[l.row]).lecturers
      {
        if l in RowsLessons(front) {
          assert body[l.row] == front[l.row];
        } else {
          var rl := RowLessons(c, |body| - 1);
          assert l in rl;
        }
      }
    }
  }

  // ------------------------------------------------------ header fields

  /** The faculty (before the first colon) and the department (between the
      first and the second colon, or empty without a colon), both stripped. */
  function FacultyAndDepartment(school: string): (string, string) {
    var parts := Split(school, ':');
    SplitPieces(school, ':');
    (Strip(parts[0]), if |parts| > 1 then Strip(parts[1]) else "")
  }

  lemma FacultyAndDepartmentSpec(school: string)
    ensures ':' !in school ==> FacultyAndDepartment(school) == (Strip(school), "")
    ensures ':' in school ==>
      var i := FirstIndex(school, ':');
      var rest := school[i + 1..];
      FacultyAndDepartment(school) ==
        (Strip(school[..i]), Strip(if ':' in rest then rest[..FirstIndex(rest, ':')] else rest))
  {
    var parts := Split(school, ':');
    SplitFirst(school, ':');
    if ':' in school {
      var i := FirstIndex(school, ':');
      var rest := school[i + 1..];
      SplitAtFirst(school, ':');
      SplitFirst(rest, ':');
      assert parts[1] == Split(rest, ':')[0];
    }
  }

  /** `id` is a non-empty word that ends `title` right after whitespace or
      at its start. */
  predicate IsLastWord(id: string, title: string) {
    && id != [] && (forall k :: 0 <= k < |id| ==> !IsSpace(id[k]))
    && |id| <= |title| && title[|title| - |id|..] == id
    && (|id| == |title| || IsSpace(title[|title| - |id| - 1]))
  }

  /** `title.split()[-1]`: the last whitespace-separated word. */
  function CourseIdOf(title: string): Result<string> {
    var words := Words(title);
    if words == [] then Err(IndexError("list index out of range")) else Ok(words[|words| - 1])
  }

  /** A stripped title yields an id exactly when it is not empty; the id is
      then a non-empty word that ends the title right after its last
      whitespace. */
  lemma CourseIdSpec(title: string)
    requires title == [] || (!IsSpace(title[0]) && !IsSpace(title[|title| - 1]))
    ensures CourseIdOf(title).Ok? <==> title != []
    ensures CourseIdOf(title).Ok? ==> IsLastWord(CourseIdOf(title).value, title)
  {
    RunsEmpty(title, IsNotSpace);
    if title != [] {
      assert IsNotSpace(title[0]);
      var words := Words(title);
      var id := words[|words| - 1];
      var j := RunsLast(title, IsNotSpace);
      assert IsNotSpace(title[|title| - 1]);
      assert j + |id| == |title|;
      assert j == 0 || !IsNotSpace(title[j - 1]);
    }
  }

  /** `int(re.search(r'\d+', text).group())`: the value of the first run
      of digits; a text without one has no match to take a group from. */
  function FirstNumber(text: string): (r: Result<nat>)
    ensures r.Ok? <==> HasDigit(text)
    ensures r.Ok? ==> DigitRuns(text) != [] && r.value == DecimalValue(DigitRuns(text)[0])
    ensures r.Err? ==> r.error.AttributeError?
  {
    var digits :- FirstDigitRun(text);
    Ok(DecimalValue(digits))
  }

  /** The syllabus link: the site origin followed by the text between the
      first and second single quote of a `javascript:OpenUrl(...)` href. */
  function SyllabusUrl(href: Option<string>): string {
    if href.Some? && Contains(href.value, OpenUrlCall) then
      var parts := Split(href.value, '\'');
      if |parts| >= 2 then ShnatonOrigin + parts[1] else ""
    else ""
  }

  lemma SyllabusUrlSpec(href: Option<string>)
    ensures SyllabusUrl(href) != "" <==>
      href.Some? && Contains(href.value, OpenUrlCall) && '\'' in href.value
    ensures href.Some? && Contains(href.value, OpenUrlCall) && '\'' in href.value ==>
      var h := href.value;
      var rest := h[FirstIndex(h, '\'') + 1..];
      SyllabusUrl(href) == ShnatonOrigin + (if '\'' in rest then rest[..FirstIndex(rest, '\'')] else rest)
  {
    if href.Some? && Contains(href.value, OpenUrlCall) {
      var h := href.value;
      SplitFirst(h, '\'');
      if '\'' in h {
        SplitSecond(h, '\'');
      }
    }
  }

  /** The text of a div that must be present, stripped. */
  function Required(div: Option<string>): Result<string> {
    if div.Some? then Ok(Strip(div.value))
    else Err(AttributeError("'NoneType' object has no attribute 'text'"))
  }

  /** The text of a div that may be missing, stripped, or the empty text. */
  function Optional(div: Option<string>): string {
    if div.Some? then Strip(div.value) else ""
  }

  /** The course as the header lookups fill it in, before the schedule is
      built, or the exception the first failing lookup raises. The
      weekly-hours lookup never matches, so weekly hours are always 0. */
  function HeaderOf(page: CoursePage): Result<Course> {
    var school :- Required(page.school);
    var title :- Required(page.title);
    var courseId :- CourseIdOf(title);
    var hebrewName :- Required(page.subtitle);
    var englishName :- Required(page.subtitleEng);
    var additional :- AdditionalOf(page);
    var semester :- Required(additional.semester);
    var creditsText :- Required(additional.studentPoints);
    var credits :- FirstNumber(creditsText);
    Ok(Header(page, school, courseId, hebrewName, englishName, additional, semester, credits))
  }

  function AdditionalOf(page: CoursePage): Result<AdditionalData> {
    if page.additional.Some? then Ok(page.additional.value)
    else Err(AttributeError("'NoneType' object has no attribute 'find'"))
  }

  /** The course record once every lookup that can fail has succeeded. */
  function Header(page: CoursePage, school: string, courseId: string, hebrewName: string,
                  englishName: string, additional: AdditionalData, semester: string,
                  credits: nat): Course
  {
    var names := FacultyAndDepartment(school);
    Course(
      courseId := courseId,
      hebrewName := hebrewName,
      englishName := englishName,
      department := names.1,
      faculty := names.0,
      semester := semester,
      weeklyHours := 0,
      credits := credits,
      language := Optional(additional.language),
      examType := Optional(additional.test),
      schedule := [],
      exams := None,
      hebrewNotes := Optional(page.comments),
      englishNotes := "",
      isRunning := true,
      syllabusUrl := SyllabusUrl(page.syllabusHref),
      moodleUrl := page.moodleHref.GetOr(""))
  }

  /** `HtmlToCourse.convert` on one course page. */
  function CourseOf(page: CoursePage): (r: Result<Course>)
    ensures HeaderOf(page).Err? ==> r == Err(HeaderOf(page).error)
    ensures HeaderOf(page).Ok? ==>
      r.Ok? && r.value.(schedule := HeaderOf(page).value.schedule) == HeaderOf(page).value
  {
    var header :- HeaderOf(page);
    Ok(header.(schedule := SortLessons(UnsortedSchedule(page.rows))))
  }

  method Convert(page: CoursePage) returns (r: Result<Course>)
    ensures r == CourseOf(page)
  {
    var header := HeaderOf(page);
    if header.Err? {
      return Err(header.error);
    }
    var schedule := BuildSchedule(page.rows);
    r := Ok(header.value.(schedule := SortLessons(schedule)));
  }

  /** Every div the header lookups require is there and the title has a
      word. */
  predicate HeaderPresent(page: CoursePage) {
    && page.school.Some? && page.title.Some? && !AllSpace(page.title.value)
    && page.subtitle.Some? && page.subtitleEng.Some? && page.additional.Some?
    && page.additional.value.semester.Some? && page.additional.value.studentPoints.Some?
  }

  /** The conditions under which a page converts: the required divs are
      there, the title has a word and the credits text has a digit. The
      schedule rows play no part. */
  lemma HeaderOfSucceeds(page: CoursePage)
    ensures HeaderOf(page).Ok? <==>
      HeaderPresent(page) && HasDigit(Strip(page.additional.value.studentPoints.value))
  {
    if page.school.Some? && page.title.Some? {
      CourseIdFound(page.title.value);
    }
  }

  /** The id lookup fails exactly on a blank title. */
  lemma CourseIdFound(title: string)
    ensures CourseIdOf(Strip(title)).Ok? <==> !AllSpace(title)
  {
    StripBlank(title);
    CourseIdSpec(Strip(title));
  }

  /** A converted course's id is a non-empty word that ends the stripped
      title right after whitespace; the faculty and department come from the
      stripped school text; it has no exams yet, is running, and has no
      English notes and no weekly hours. */
  lemma HeaderOfFields(page: CoursePage)
    requires HeaderOf(page).Ok?
    ensures var c := HeaderOf(page).value;
      var title := Strip(page.title.value);
      && c.exams == None && c.isRunning && c.englishNotes == "" && c.weeklyHours == 0
      && IsLastWord(c.courseId, title)
      && (c.faculty, c.department) == FacultyAndDepartment(Strip(page.school.value))
      && c.hebrewName == Strip(page.subtitle.value) && c.englishName == Strip(page.subtitleEng.value)
      && page.additional.Some? && c.semester == Strip(page.additional.value.semester.value)
      && FirstNumber(Strip(page.additional.value.studentPoints.value)).Ok?
      && c.credits == FirstNumber(Strip(page.additional.value.studentPoints.value)).value
  {
    var title := Strip(page.title.value);
    HeaderOfValue(page);
    CourseIdSpec(title);
  }

  /** A converted header is the record built from the page's texts: the
      required ones stripped, the optional ones stripped or empty when
      missing, the syllabus link rebuilt from its href and the Moodle link
      the href as it is. */
  lemma HeaderOfValue(page: CoursePage)
    requires HeaderOf(page).Ok?
    ensures page.title.Some? && CourseIdOf(Strip(page.title.value)).Ok?
    ensures var c := HeaderOf(page).value;
      && c.exams == None && c.isRunning && c.englishNotes == "" && c.weeklyHours == 0
      && c.courseId == CourseIdOf(Strip(page.title.value)).value
      && (c.faculty, c.department) == FacultyAndDepartment(Strip(page.school.value))
      && c.hebrewName == Strip(page.subtitle.value) && c.englishName == Strip(page.subtitleEng.value)
      && page.additional.Some? && c.semester == Strip(page.additional.value.semester.value)
      && FirstNumber(Strip(page.additional.value.studentPoints.value)).Ok?
      && c.credits == FirstNumber(Strip(page.additional.value.studentPoints.value)).value
    ensures var c := HeaderOf(page).value;
      var additional := page.additional.value;
      && c.language == (if additional.language.Some? then Strip(additional.language.value) else "")
      && c.examType == (if additional.test.Some? then Strip(additional.test.value) else "")
      && c.hebrewNotes == (if page.comments.Some? then Strip(page.comments.value) else "")
      && c.syllabusUrl == SyllabusUrl(page.syllabusHref)
      && c.moodleUrl == (if page.moodleHref.Some? then page.moodleHref.value else "")
  {
    var additional := page.additional.value;
    var credits := FirstNumber(Strip(additional.studentPoints.value)).value;
    var courseId := CourseIdOf(Strip(page.title.value)).value;
    assert HeaderOf(page).value ==
      Header(page, Strip(page.school.value), courseId, Strip(page.subtitle.value), Strip(page.subtitleEng.value),
             additional, Strip(additional.semester.value), credits);
  }

  /** The schedule of a converted course is the row-by-row schedule sorted
      by the lesson key: ordered, a permutation of it that keeps the order
      of lessons with equal keys, and as long as the row counts add up to. */
  lemma CourseOfSchedule(page: CoursePage)
    requires CourseOf(page).Ok?
    ensures var schedule := CourseOf(page).value.schedule;
      var unsorted := UnsortedSchedule(page.rows);
      && Sorted(schedule)
      && multiset(schedule) == multiset(unsorted)
      && (forall k :: WithKey(schedule, k) == WithKey(unsorted, k))
      && (page.rows != [] ==> |schedule| == TotalCount(page.rows[1..]))
  {
    var unsorted := UnsortedSchedule(page.rows);
    SortLessonsSorted(unsorted);
    SortLessonsPermutes(unsorted);
    forall k ensures WithKey(SortLessons(unsorted), k) == WithKey(unsorted, k) {
      SortLessonsStable(unsorted, k);
    }
    if page.rows != [] {
      ScheduleLength(page.rows[1..]);
      assert |multiset(SortLessons(unsorted))| == |multiset(unsorted)|;
    }
  }

  // ------------------------------------------------ pages and exam tables

  /** `HtmlPageToCourses.convert`: one course per course fragment, in
      document order; the first fragment that fails aborts the page. */
  function PageToCourses(fragments: seq<CoursePage>): (r: Result<seq<Course>>)
    ensures r.Ok? <==> forall i :: 0 <= i < |fragments| ==> CourseOf(fragments[i]).Ok?
    ensures r.Ok? ==> |r.value| == |fragments|
    ensures r.Ok? ==> forall i :: 0 <= i < |fragments| ==> r.value[i] == CourseOf(fragments[i]).value
    ensures r.Err? ==> exists i :: 0 <= i < |fragments| && CourseOf(fragments[i]) == Err(r.error) &&
                                   (forall j :: 0 <= j < i ==> CourseOf(fragments[j]).Ok?)
  {
    MapAll(fragments, CourseOf)
  }

  /** One exam-table row unpacked into six names and stored in the Exam
      field order. */
  function ExamRow(cells: seq<string>): Result<Exam> {
    if |cells| != 6 then Err(UnpackError(6, |cells|))
    else
      Ok(Exam(date := cells[2], hour := cells[3], notes := cells[5],
              location := cells[4], moed := cells[1], semester := cells[0]))
  }

  /** The rows after the header row. */
  function DataRows(rows: seq<seq<string>>): seq<seq<string>> {
    if rows == [] then [] else rows[1..]
  }

  /** `HtmlToExams.convert` on the page's first table. */
  function ExamsOf(table: Option<seq<seq<string>>>): (r: Result<seq<Exam>>)
    ensures table.None? ==> r.Err? && r.error.AttributeError?
    ensures r.Ok? ==> |r.value| == |DataRows(table.value)|
  {
    if table.None? then Err(AttributeError("'NoneType' object has no attribute 'find_all'"))
    else MapAll(DataRows(table.value), ExamRow)
  }

  /** The loop that appends one Exam per data row. */
  method ConvertExams(table: Option<seq<seq<string>>>) returns (r: Result<seq<Exam>>)
    ensures r == ExamsOf(table)
  {
    if table.None? {
      return Err(AttributeError("'NoneType' object has no attribute 'find_all'"));
    }
    var rows := DataRows(table.value);
    var exams := [];
    var i := 0;
    while i < |rows|
      invariant 0 <= i <= |rows|
      invariant MapAll(rows[..i], ExamRow) == Ok(exams)
    {
      var e := ExamRow(rows[i]);
      if e.Err? {
        MapAllStops(rows, ExamRow, i);
        return Err(e.error);
      }
      MapAllGrows(rows, ExamRow, i);
      exams := exams + [e.value];
      i := i + 1;
    }
    assert rows[..i] == rows;
    r := Ok(exams);
  }

  /** The exams of a table: present exactly when there is a table whose
      every data row has six cells, read as (semester, sitting, date, hour,
      location, notes). */
  lemma ExamsOfSpec(table: Option<seq<seq<string>>>)
    ensures ExamsOf(table).Ok? <==>
      table.Some? && forall k :: 0 < k < |table.value| ==> |table.value[k]| == 6
    ensures ExamsOf(table).Ok? ==>
      var rows := table.value;
      var exams := ExamsOf(table).value;
      |exams| == (if rows == [] then 0 else |rows| - 1) &&
      forall k :: 0 <= k < |exams| ==>
        var cells := rows[k + 1];
        exams[k].semester == cells[0] && exams[k].moed == cells[1] &&
        exams[k].date == cells[2] && exams[k].hour == cells[3] &&
        exams[k].location == cells[4] && exams[k].notes == cells[5]
  {
    if table.Some? {
      var rows := table.value;
      var data := DataRows(rows);
      assert forall k :: 0 < k < |rows| ==> rows[k] == data[k - 1];
      assert forall k :: 0 <= k < |data| ==> data[k] == rows[k + 1];
    }
  }
}
