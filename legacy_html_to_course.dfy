/** The catalog's older table layout turned into records. A course sits in
    nested tables; each schedule row is a `tr` whose `td` cells hold the
    column texts separated by `<br>`, and the first column decides how many
    lessons the row has. */
module LegacyHtmlToCourse {
  import opened Wrappers
  import opened Text

  // The column of each lesson field in a schedule row.
  const LocationIdx := 0
  const PassingTypeIdx := 1
  const TimeIdx := 2
  const DayIdx := 3
  const SemesterIdx := 4
  const GroupIdx := 5
  const LessonTypeIdx := 6
  const LecturerIdx := 7

  /** The class list a lesson cell must carry. */
  const LessonCellClasses := ["courseDet", "text"]

  // --------------------------------------------------------------- data

  /** A node of a cell's content: a text node, or an element with its
      children. `nextB` is the text of the first `b` element after the
      element's start tag in the document, where there is one. */
  datatype Node =
    | TextNode(text: string)
    | Element(name: string, children: seq<Node>, nextB: Option<string>)

  /** A `td` cell: its class list and its direct contents. */
  datatype Cell = Cell(classes: seq<string>, contents: seq<Node>)

  /** A `tr` of the details table: its cells, and the text of the first `td`
      after the row's start tag, where there is one. */
  datatype DetailRow = DetailRow(cells: seq<Cell>, nextTd: Option<string>)

  /** A `b` of the title table, and whether its parent is a `font`. */
  datatype Bold = Bold(text: string, inFont: bool)

  /** What the older converter reads from a course's HTML. */
  datatype LegacyPage = LegacyPage(
    courseTitle: Option<string>,   // div.courseTitle
    bolds: seq<Bold>,              // every b of the table after it
    hasRedFont: bool,              // a font with color red in that table
    detailCells: seq<string>,      // every td of the next table
    rows: seq<DetailRow>)          // every tr of the CourseDetails table

  /** The older Lesson record: no row number. */
  datatype LegacyLesson = LegacyLesson(
    location: string,
    passingType: string,
    time: string,
    day: string,
    semester: string,
    group: string,
    lessonType: string,
    lecturers: seq<string>)

  /** The older Course record, with the running flag the converter passes
      (see LegacyConvertAsWritten). Points and test length keep the text
      the converter passes for them. */
  datatype LegacyCourse = LegacyCourse(
    faculty: string,
    courseId: string,
    englishName: string,
    hebrewName: string,
    points: string,
    semester: string,
    language: string,
    testLength: string,
    testType: string,
    schedule: seq<LegacyLesson>,
    hebrewNotes: string,
    englishNotes: string,
    isRunning: bool)

  /** `.text`: the concatenated text nodes below a node. */
  function TextOf(n: Node): string
    decreases n, 1
  {
    match n
    case TextNode(t) => t
    case Element(_, children, _) => TextsOf(children)
  }

  function TextsOf(ns: seq<Node>): string
    decreases ns, 0
  {
    if ns == [] then "" else TextOf(ns[0]) + TextsOf(ns[1..])
  }

  // ------------------------------------------------------ cell contents

  /** A span whose text cannot be read: fewer than two children, or a
      truncated second child and no `b` after it. */
  predicate Unreadable(n: Node) {
    n.Element? && n.name == "span" &&
    (|n.children| < 2 || (Contains(TextOf(n.children[1]), "...") && n.nextB.None?))
  }

  /** A node that adds nothing: a blank text node, or an element other than
      `span` and `b`. */
  predicate Ignored(n: Node) {
    if n.TextNode? then AllSpace(n.text) else n.name != "span" && n.name != "b"
  }

  /** What one content node adds to the cell's list: a non-blank text
      node's stripped text; for a `span`, its second child's stripped text,
      or the next `b`'s when that child shows `...`; a `b`'s stripped text;
      nothing for anything else. */
  function ContentText(n: Node): (r: Result<seq<string>>)
    ensures r.Ok? ==> |r.value| <= 1
    ensures n.TextNode? ==> r == Ok(if AllSpace(n.text) then [] else [Strip(n.text)])
    ensures r.Err? <==> Unreadable(n)
    ensures r.Err? ==> if |n.children| < 2 then r.error.IndexError? else r.error.AttributeError?
    ensures n.Element? && n.name == "span" && !Unreadable(n) ==>
      r == Ok([Strip(if Contains(TextOf(n.children[1]), "...") then n.nextB.value else TextOf(n.children[1]))])
    ensures n.Element? && n.name == "b" ==> r == Ok([Strip(TextOf(n))])
    ensures Ignored(n) <==> r == Ok([])
  {
    match n
    case TextNode(t) =>
      StripBlank(t);
      if Strip(t) != [] then Ok([Strip(t)]) else Ok([])
    case Element(name, children, nextB) =>
      if name == "span" then
        if |children| < 2 then Err(IndexError("list index out of range"))
        else if Contains(TextOf(children[1]), "...") then
          if nextB.None? then Err(AttributeError("'NoneType' object has no attribute 'text'"))
          else Ok([Strip(nextB.value)])
        else Ok([Strip(TextOf(children[1]))])
      else if name == "b" then Ok([Strip(TextOf(n))])
      else Ok([])
  }

  /** `_list_text_in_lesson_td` on one cell. */
  function CellTexts(cell: Cell): (r: Result<seq<string>>)
    ensures cell.classes != LessonCellClasses ==> r == Err(AssertionError("Invalid tag for lesson data."))
    ensures r.Ok? ==> cell.classes == LessonCellClasses
  {
    if cell.classes != LessonCellClasses then Err(AssertionError("Invalid tag for lesson data."))
    else Collect(cell.contents, ContentText)
  }

  method ListTextInLessonTd(cell: Cell) returns (r: Result<seq<string>>)
    ensures r == CellTexts(cell)
  {
    if cell.classes != LessonCellClasses {
      return Err(AssertionError("Invalid tag for lesson data."));
    }
    var contents := cell.contents;
    var textList := [];
    var i := 0;
    while i < |contents|
      invariant 0 <= i <= |contents|
      invariant Collect(contents[..i], ContentText) == Ok(textList)
    {
      CollectNext(contents, ContentText, i);
      var content := contents[i];
      ghost var before := textList;
      match content {
        case TextNode(t) =>
          if Strip(t) != [] {
            textList := textList + [Strip(t)];
            assert ContentText(content) == Ok([Strip(t)]);
          } else {
            assert ContentText(content) == Ok([]);
          }
        case Element(name, children, nextB) =>
          if name == "span" {
            if |children| < 2 {
              CollectStops(contents, ContentText, i + 1);
              assert contents[..|contents|] == contents;
              return Err(IndexError("list index out of range"));
            }
            if Contains(TextOf(children[1]), "...") {
              if nextB.None? {
                CollectStops(contents, ContentText, i + 1);
                assert contents[..|contents|] == contents;
                return Err(AttributeError("'NoneType' object has no attribute 'text'"));
              }
              textList := textList + [Strip(nextB.value)];
              assert ContentText(content) == Ok([Strip(nextB.value)]);
            } else {
              textList := textList + [Strip(TextOf(children[1]))];
              assert ContentText(content) == Ok([Strip(TextOf(children[1]))]);
            }
          } else if name == "b" {
            textList := textList + [Strip(TextOf(content))];
            assert ContentText(content) == Ok([Strip(TextOf(content))]);
          } else {
            assert ContentText(content) == Ok([]);
          }
      }
      assert textList == before + ContentText(content).value;
      i := i + 1;
    }
    assert contents[..|contents|] == contents;
    r := Ok(textList);
  }

  /** The cell is read exactly when its class list is the lesson one and no
      span in it is unreadable; the list then has at most one text per
      content node. */
  lemma {:induction false} CellTextsSpec(cell: Cell)
    ensures CellTexts(cell).Ok? <==>
      cell.classes == LessonCellClasses &&
      forall i :: 0 <= i < |cell.contents| ==> !Unreadable(cell.contents[i])
    ensures CellTexts(cell).Ok? ==> |CellTexts(cell).value| <= |cell.contents|
  {
    CollectOk(cell.contents, ContentText);
    if cell.classes == LessonCellClasses {
      CollectedAtMostOne(cell.contents);
    }
  }

  lemma {:induction false} CollectedAtMostOne(ns: seq<Node>)
    ensures Collect(ns, ContentText).Ok? ==> |Collect(ns, ContentText).value| <= |ns|
  {
    if ns != [] {
      CollectedAtMostOne(ns[..|ns| - 1]);
      CollectOk(ns, ContentText);
    }
  }

  /** Contrary to the method's own description, a lesson cell can yield an
      empty list: one whose every node is ignored. */
  lemma {:induction false} CellTextsMayBeEmpty(cell: Cell)
    requires cell.classes == LessonCellClasses
    requires forall i :: 0 <= i < |cell.contents| ==> Ignored(cell.contents[i])
    ensures CellTexts(cell) == Ok([])
  {
    NothingCollected(cell.contents);
  }

  lemma {:induction false} NothingCollected(ns: seq<Node>)
    requires forall i :: 0 <= i < |ns| ==> Ignored(ns[i])
    ensures Collect(ns, ContentText) == Ok([])
  {
    if ns != [] {
      var last := ns[|ns| - 1];
      NothingCollected(ns[..|ns| - 1]);
      assert Ignored(last);
      if last.TextNode? {
        StripBlank(last.text);
      }
      assert ContentText(last) == Ok([]);
      CollectNext(ns, ContentText, |ns| - 1);
      assert ns[..|ns|] == ns;
      var none: seq<string> := [];
      assert none + none == none;
    }
  }

  // ------------------------------------------------------------ padding

  /** `[''] * n`: no element when `n` is not positive. */
  function Blanks(n: int): (r: seq<string>)
    ensures |r| == if n <= 0 then 0 else n
    ensures forall i :: 0 <= i < |r| ==> r[i] == ""
  {
    if n <= 0 then [] else seq(n, _ => "")
  }

  /** A column padded with empty texts up to `n` entries. */
  function Pad(column: seq<string>, n: nat): (r: seq<string>)
    ensures |r| == if |column| < n then n else |column|
    ensures r[..|column|] == column
    ensures forall i :: |column| <= i < |r| ==> r[i] == ""
    ensures |column| >= n ==> r == column
  {
    column + Blanks(n - |column|)
  }

  /** Entry `i` of a padded column: the column's own entry, or the empty text. */
  lemma PadAt(column: seq<string>, n: nat, i: nat)
    requires i < n
    ensures i < |Pad(column, n)|
    ensures Pad(column, n)[i] == if i < |column| then column[i] else ""
  {
    if i < |column| {
      assert Pad(column, n)[..|column|][i] == column[i];
    }
  }

  /** The columns with the location, passing-type, time, day and semester
      columns padded to `n`; the others as they were. */
  function PadFront(columns: seq<seq<string>>, n: nat): (r: seq<seq<string>>)
    ensures |r| == |columns|
  {
    seq(|columns|, i requires 0 <= i < |columns| => if i <= SemesterIdx then Pad(columns[i], n) else columns[i])
  }

  /** The in-place `+=` on columns 0 to 4. With fewer than five columns the
      ones that exist are padded before the missing one raises. */
  method PadColumns(columns: array<seq<string>>, n: nat) returns (ok: bool)
    modifies columns
    ensures ok <==> columns.Length > SemesterIdx
    ensures columns[..] == PadFront(old(columns[..]), n)
  {
    var idx := LocationIdx;
    while idx <= SemesterIdx
      invariant LocationIdx <= idx <= SemesterIdx + 1
      invariant idx <= columns.Length
      invariant forall i :: 0 <= i < columns.Length ==>
        columns[i] == if i < idx then Pad(old(columns[i]), n) else old(columns[i])
    {
      if idx >= columns.Length {
        return false;
      }
      columns[idx] := columns[idx] + Blanks(n - |columns[idx]|);
      idx := idx + 1;
    }
    return true;
  }

  // ------------------------------------------------------- row lessons

  /** The lessons of one schedule row from its column lists: as many as
      the location column has entries, or an IndexError when a column the
      lessons read is missing or, for columns 5 and 6, empty. */
  function RowLessons(columns: seq<seq<string>>): Result<seq<LegacyLesson>>
    requires columns != []
  {
    var n := |columns[LocationIdx]|;
    if |columns| <= SemesterIdx then Err(IndexError("list index out of range"))
    else if n > 0 && (|columns| <= LecturerIdx || columns[GroupIdx] == [] || columns[LessonTypeIdx] == []) then
      Err(IndexError("list index out of range"))
    else
      var padded := PadFront(columns, n);
      Ok(seq(n, i requires 0 <= i < n => LegacyLesson(
        padded[LocationIdx][i], padded[PassingTypeIdx][i], padded[TimeIdx][i],
        padded[DayIdx][i], padded[SemesterIdx][i],
        columns[GroupIdx][0], columns[LessonTypeIdx][0], columns[LecturerIdx])))
  }

  /** What one schedule row adds: nothing for a row without cells, else the
      lessons of its cells' text lists. */
  function RowResult(row: DetailRow): Result<seq<LegacyLesson>> {
    if row.cells == [] then Ok([])
    else
      var columns :- MapAll(row.cells, CellTexts);
      RowLessons(columns)
  }

  /** The schedule of the given schedule rows. */
  function ScheduleOf(rows: seq<DetailRow>): Result<seq<LegacyLesson>> {
    Collect(rows, RowResult)
  }

  /** A row has as many lessons as its location column has entries; lesson
      `i` takes entry `i` of columns 0 to 4, or the empty text past a
      column's end, the first entry of columns 5 and 6, and the whole
      lecturer column. */
  lemma RowLessonsSpec(columns: seq<seq<string>>)
    requires columns != []
    ensures RowLessons(columns).Ok? <==>
      |columns| > SemesterIdx &&
      (columns[LocationIdx] != [] ==>
        |columns| > LecturerIdx && columns[GroupIdx] != [] && columns[LessonTypeIdx] != [])
    ensures RowLessons(columns).Ok? ==>
      var lessons := RowLessons(columns).value;
      |lessons| == |columns[LocationIdx]| &&
      forall i :: 0 <= i < |lessons| ==>
        && lessons[i].location == columns[LocationIdx][i]
        && lessons[i].passingType == (if i < |columns[PassingTypeIdx]| then columns[PassingTypeIdx][i] else "")
        && lessons[i].time == (if i < |columns[TimeIdx]| then columns[TimeIdx][i] else "")
        && lessons[i].day == (if i < |columns[DayIdx]| then columns[DayIdx][i] else "")
        && lessons[i].semester == (if i < |columns[SemesterIdx]| then columns[SemesterIdx][i] else "")
        && lessons[i].group == columns[GroupIdx][0]
        && lessons[i].lessonType == columns[LessonTypeIdx][0]
        && lessons[i].lecturers == columns[LecturerIdx]
  {
    if RowLessons(columns).Ok? {
      var n := |columns[LocationIdx]|;
      var lessons := RowLessons(columns).value;
      forall i | 0 <= i < n
        ensures lessons[i].passingType == (if i < |columns[PassingTypeIdx]| then columns[PassingTypeIdx][i] else "")
        ensures lessons[i].time == (if i < |columns[TimeIdx]| then columns[TimeIdx][i] else "")
        ensures lessons[i].day == (if i < |columns[DayIdx]| then columns[DayIdx][i] else "")
        ensures lessons[i].semester == (if i < |columns[SemesterIdx]| then columns[SemesterIdx][i] else "")
      {
        PadAt(columns[PassingTypeIdx], n, i);
        PadAt(columns[TimeIdx], n, i);
        PadAt(columns[DayIdx], n, i);
        PadAt(columns[SemesterIdx], n, i);
      }
    }
  }

  /** The number of location entries of the rows' first cells. */
  function LocationCount(rows: seq<DetailRow>): nat {
    if rows == [] then 0
    else
      var row := rows[|rows| - 1];
      var here := if row.cells != [] && CellTexts(row.cells[0]).Ok? then |CellTexts(row.cells[0]).value| else 0;
      LocationCount(rows[..|rows| - 1]) + here
  }

  /** A schedule has one lesson per location entry of its rows. */
  lemma {:induction false} ScheduleLength(rows: seq<DetailRow>)
    ensures ScheduleOf(rows).Ok? ==> |ScheduleOf(rows).value| == LocationCount(rows)
  {
    if rows != [] {
      var row := rows[|rows| - 1];
      ScheduleLength(rows[..|rows| - 1]);
      CollectOk(rows, RowResult);
      if ScheduleOf(rows).Ok? && row.cells != [] {
        assert RowResult(row).Ok?;
        var columns := MapAll(row.cells, CellTexts).value;
        RowLessonsSpec(columns);
      }
    }
  }

  /** The loop of the older `convert` over the schedule rows. */
  method LegacySchedule(rows: seq<DetailRow>) returns (r: Result<seq<LegacyLesson>>)
    ensures r == ScheduleOf(rows)
  {
    var schedule := [];
    var k := 0;
    while k < |rows|
      invariant 0 <= k <= |rows|
      invariant Collect(rows[..k], RowResult) == Ok(schedule)
    {
      CollectNext(rows, RowResult, k);
      var lessons := ScheduleRow(rows[k]);
      if lessons.Err? {
        CollectStops(rows, RowResult, k + 1);
        assert rows[..|rows|] == rows;
        return Err(lessons.error);
      }
      schedule := schedule + lessons.value;
      k := k + 1;
    }
    assert rows[..|rows|] == rows;
    r := Ok(schedule);
  }

  /** The body of that loop for one row: the cells' text lists (a list
      comprehension), then the alignment. */
  method ScheduleRow(row: DetailRow) returns (r: Result<seq<LegacyLesson>>)
    ensures r == RowResult(row)
  {
    var lessonTds := row.cells;
    if lessonTds == [] {
      return Ok([]);
    }
    var lessonDataLists := MapAll(lessonTds, CellTexts);
    if lessonDataLists.Err? {
      return Err(lessonDataLists.error);
    }
    r := AlignRow(lessonDataLists.value);
  }

  /** Lesson `i` of a row, read from the padded columns. */
  lemma RowLessonsAt(columns: seq<seq<string>>, i: nat)
    requires |columns| > LecturerIdx && i < |columns[LocationIdx]|
    requires columns[GroupIdx] != [] && columns[LessonTypeIdx] != []
    ensures RowLessons(columns).Ok? && |RowLessons(columns).value| == |columns[LocationIdx]|
    ensures var padded := PadFront(columns, |columns[LocationIdx]|);
      RowLessons(columns).value[i] == LegacyLesson(
        padded[LocationIdx][i], padded[PassingTypeIdx][i], padded[TimeIdx][i],
        padded[DayIdx][i], padded[SemesterIdx][i],
        padded[GroupIdx][0], padded[LessonTypeIdx][0], padded[LecturerIdx])
  {
  }

  /** The padding in place, then one lesson per location entry. */
  method AlignRow(columns: seq<seq<string>>) returns (r: Result<seq<LegacyLesson>>)
    requires columns != []
    ensures r == RowLessons(columns)
  {
    var lists := new seq<string>[|columns|](i requires 0 <= i < |columns| => columns[i]);
    assert lists[..] == columns;
    var numLessons := |lists[LocationIdx]|;
    var padded := PadColumns(lists, numLessons);
    if !padded {
      return Err(IndexError("list index out of range"));
    }
    r := ReadLessons(lists, columns, numLessons);
  }

  /** The lesson loop over the padded column lists. */
  method ReadLessons(lists: array<seq<string>>, ghost columns: seq<seq<string>>, numLessons: nat)
    returns (r: Result<seq<LegacyLesson>>)
    requires |columns| > SemesterIdx && numLessons == |columns[LocationIdx]|
    requires lists[..] == PadFront(columns, numLessons)
    ensures r == RowLessons(columns)
  {
    ghost var padded := PadFront(columns, numLessons);
    assert lists[LocationIdx] == padded[LocationIdx] && lists[PassingTypeIdx] == padded[PassingTypeIdx];
    assert lists[TimeIdx] == padded[TimeIdx] && lists[DayIdx] == padded[DayIdx];
    assert lists[SemesterIdx] == padded[SemesterIdx];
    var lessons := [];
    var lessonIdx := 0;
    while lessonIdx < numLessons
      invariant 0 <= lessonIdx <= numLessons
      invariant lessonIdx > 0 ==> RowLessons(columns).Ok? && lessons == RowLessons(columns).value[..lessonIdx]
      invariant lessonIdx == 0 ==> lessons == []
    {
      if lists.Length <= LecturerIdx || lists[GroupIdx] == [] || lists[LessonTypeIdx] == [] {
        return Err(IndexError("list index out of range"));
      }
      var lesson := LegacyLesson(
        lists[LocationIdx][lessonIdx], lists[PassingTypeIdx][lessonIdx], lists[TimeIdx][lessonIdx],
        lists[DayIdx][lessonIdx], lists[SemesterIdx][lessonIdx],
        lists[GroupIdx][0], lists[LessonTypeIdx][0], lists[LecturerIdx]);
      RowLessonsAt(columns, lessonIdx);
      ghost var expected := RowLessons(columns).value;
      assert expected[..lessonIdx + 1] == expected[..lessonIdx] + [lesson];
      lessons := lessons + [lesson];
      lessonIdx := lessonIdx + 1;
    }
    if numLessons > 0 {
      assert RowLessons(columns).value[..numLessons] == RowLessons(columns).value;
    }
    r := Ok(lessons);
  }

  // ------------------------------------------------- rows, notes, course

  /** The rows after the first, split into schedule rows and the last two,
      the note rows. */
  function SplitDetailRows(trs: seq<DetailRow>): (r: (seq<DetailRow>, seq<DetailRow>))
    ensures trs != [] ==> r.0 + r.1 == trs[1..]
    ensures trs == [] ==> r == ([], [])
    ensures |r.1| == if |trs| >= 3 then 2 else if trs == [] then 0 else |trs| - 1
  {
    var detail := if trs == [] then [] else trs[1..];
    var cut := if |detail| >= 2 then |detail| - 2 else 0;
    assert detail == detail[..cut] + detail[cut..];
    (detail[..cut], detail[cut..])
  }

  /** The Hebrew and English notes: the stripped text of the `td` after each
      of the two note rows, both empty without note rows, and a failed
      unpacking with only one. */
  function NotesOf(noteRows: seq<DetailRow>): (r: Result<(string, string)>)
    requires |noteRows| <= 2
    ensures noteRows == [] ==> r == Ok(("", ""))
    ensures |noteRows| == 1 ==> r.Err?
    ensures |noteRows| == 2 ==>
      (r.Ok? <==> noteRows[0].nextTd.Some? && noteRows[1].nextTd.Some?)
    ensures |noteRows| == 2 && r.Ok? ==>
      r.value == (Strip(noteRows[0].nextTd.value), Strip(noteRows[1].nextTd.value))
  {
    if noteRows == [] then Ok(("", ""))
    else
      var texts :- MapAll(noteRows, NoteText);
      if |texts| != 2 then Err(UnpackError(2, |texts|)) else Ok((texts[0], texts[1]))
  }

  function NoteText(row: DetailRow): Result<string> {
    if row.nextTd.Some? then Ok(Strip(row.nextTd.value))
    else Err(AttributeError("'NoneType' object has no attribute 'text'"))
  }

  /** The stripped texts of the bold elements whose parent is not a `font`. */
  function Unbolded(bolds: seq<Bold>): (r: seq<string>)
    ensures |r| <= |bolds|
  {
    if bolds == [] then []
    else (if bolds[0].inFont then [] else [Strip(bolds[0].text)]) + Unbolded(bolds[1..])
  }

  /** `Unbolded` is a filter: the stripped texts of the bold elements outside
      a `font`, part by part and in order. */
  lemma {:induction false} UnboldedFilter(a: seq<Bold>, b: seq<Bold>)
    ensures Unbolded(a + b) == Unbolded(a) + Unbolded(b)
  {
    if a == [] {
      assert a + b == b;
    } else {
      assert (a + b)[1..] == a[1..] + b;
      UnboldedFilter(a[1..], b);
    }
  }

  lemma UnboldedSingle(x: Bold)
    ensures Unbolded([x]) == if x.inFont then [] else [Strip(x.text)]
  {
    assert [x][1..] == [];
  }

  /** The older `HtmlToCourse.convert` with the record built as the caller
      intends: the running flag is stored with the other twelve fields. */
  function LegacyCourseOf(page: LegacyPage): (r: Result<LegacyCourse>)
    ensures page.courseTitle.None? ==> r.Err? && r.error.AttributeError?
    ensures page.courseTitle.Some? && |Unbolded(page.bolds)| != 3 ==> r == Err(UnpackError(3, |Unbolded(page.bolds)|))
    ensures r.Ok? ==> page.courseTitle.Some? && r.value.faculty == Strip(page.courseTitle.value)
                      && r.value.isRunning == !page.hasRedFont
  {
    var faculty :- if page.courseTitle.Some? then Ok(Strip(page.courseTitle.value))
                   else Err(AttributeError("'NoneType' object has no attribute 'text'"));
    var names := Unbolded(page.bolds);
    if |names| != 3 then Err(UnpackError(3, |names|))
    else
      var courseId :- FirstDigitRun(names[2]);
      var details := StripEach(page.detailCells);
      if |details| != 6 then Err(UnpackError(6, |details|))
      else
        ScheduleAndNotes(page, faculty, courseId, names, details)
  }

  /** The rest of the conversion once the title and detail tables are
      unpacked: the schedule rows, then the note rows. */
  function ScheduleAndNotes(page: LegacyPage, faculty: string, courseId: string,
                            names: seq<string>, details: seq<string>): Result<LegacyCourse>
    requires |names| == 3 && |details| == 6
  {
    var parts := SplitDetailRows(page.rows);
    var schedule :- ScheduleOf(parts.0);
    var notes :- NotesOf(parts.1);
    Ok(Assembled(faculty, courseId, names, details, schedule, notes, !page.hasRedFont))
  }

  /** The record from the unpacked texts, in the order of the call. */
  function Assembled(faculty: string, courseId: string, names: seq<string>, details: seq<string>,
                     schedule: seq<LegacyLesson>, notes: (string, string), isRunning: bool): LegacyCourse
    requires |names| == 3 && |details| == 6
  {
    LegacyCourse(
      faculty := faculty,
      courseId := courseId,
      englishName := names[0],
      hebrewName := names[1],
      points := details[3],
      semester := details[4],
      language := details[5],
      testLength := details[0],
      testType := details[1],
      schedule := schedule,
      hebrewNotes := notes.0,
      englishNotes := notes.1,
      isRunning := isRunning)
  }

  /** The older `convert` as written: everything above is computed, then
      the twelve-field Course is called with thirteen values. */
  function LegacyConvertAsWritten(page: LegacyPage): (r: Result<LegacyCourse>)
    ensures LegacyCourseOf(page).Err? ==> r == LegacyCourseOf(page)
    ensures LegacyCourseOf(page).Ok? ==> r.Err? && r.error.TypeError?
  {
    var _ :- LegacyCourseOf(page);
    Err(TypeError("Course.__init__() takes 13 positional arguments but 14 were given"))
  }

  /** As written, no page converts. */
  lemma AsWrittenNeverConverts(page: LegacyPage)
    ensures LegacyConvertAsWritten(page).Err?
    ensures LegacyCourseOf(page).Ok? ==> LegacyConvertAsWritten(page).error.TypeError?
  {
  }

  /** The pages the intended conversion accepts and the written one
      rejects include every page with a title, three bold texts the last of
      which holds a digit, six detail cells and no detail rows. */
  lemma AsWrittenCounterexample(title: string, english: string, hebrew: string, id: string,
                                cells: seq<string>, digitAt: nat)
    requires |cells| == 6 && digitAt < |Strip(id)| && IsDigit(Strip(id)[digitAt])
    ensures var page := LegacyPage(Some(title), [Bold(english, false), Bold(hebrew, false), Bold(id, false)],
                                   false, cells, []);
      LegacyCourseOf(page).Ok? && LegacyConvertAsWritten(page).Err?
  {
    var page := LegacyPage(Some(title), [Bold(english, false), Bold(hebrew, false), Bold(id, false)],
                           false, cells, []);
    var names := Unbolded(page.bolds);
    UnboldedThree(english, hebrew, id);
    RunsEmpty(Strip(id), IsDigit);
    assert FirstDigitRun(names[2]).Ok?;
    var parts := SplitDetailRows(page.rows);
    assert parts == ([], []);
    assert ScheduleOf(parts.0) == Ok([]);
    assert ScheduleAndNotes(page, Strip(title), FirstDigitRun(names[2]).value, names, StripEach(cells)).Ok?;
  }

  lemma UnboldedThree(a: string, b: string, c: string)
    ensures Unbolded([Bold(a, false), Bold(b, false), Bold(c, false)]) == [Strip(a), Strip(b), Strip(c)]
  {
    var bolds := [Bold(a, false), Bold(b, false), Bold(c, false)];
    assert bolds[1..][1..] == [Bold(c, false)];
    assert Unbolded([Bold(c, false)]) == [Strip(c)];
  }

  /** What a converted course holds: the running flag is the absence of a
      red font; the id is a non-empty run of digits; the schedule comes from
      every row after the first except the last two; the notes are empty
      without note rows. */
  lemma LegacyCourseOfFields(page: LegacyPage)
    requires LegacyCourseOf(page).Ok?
    ensures var c := LegacyCourseOf(page).value;
      && c.isRunning == !page.hasRedFont
      && c.courseId != [] && AllDigits(c.courseId)
      && c.faculty == Strip(page.courseTitle.value)
      && Ok(c.schedule) == ScheduleOf(SplitDetailRows(page.rows).0)
      && (|page.rows| <= 1 ==> c.hebrewNotes == "" && c.englishNotes == "")
    ensures var c := LegacyCourseOf(page).value;
      var names := Unbolded(page.bolds);
      && |names| == 3 && c.englishName == names[0] && c.hebrewName == names[1]
      && FirstDigitRun(names[2]).Ok? && c.courseId == FirstDigitRun(names[2]).value
    ensures var c := LegacyCourseOf(page).value;
      var cells := page.detailCells;
      && |cells| == 6
      && c.points == Strip(cells[3]) && c.semester == Strip(cells[4]) && c.language == Strip(cells[5])
      && c.testLength == Strip(cells[0]) && c.testType == Strip(cells[1])
    ensures var c := LegacyCourseOf(page).value;
      var n := |page.rows|;
      && n != 2
      && (n >= 3 ==> page.rows[n - 2].nextTd.Some? && page.rows[n - 1].nextTd.Some?
                     && c.hebrewNotes == Strip(page.rows[n - 2].nextTd.value)
                     && c.englishNotes == Strip(page.rows[n - 1].nextTd.value))
  {
    LegacyCourseOfUnpacked(page);
    LegacyCourseOfNotes(page);
  }

  /** The notes are empty without note rows, and otherwise the stripped
      texts after the last two rows. */
  lemma LegacyCourseOfNotes(page: LegacyPage)
    requires LegacyCourseOf(page).Ok?
    ensures var c := LegacyCourseOf(page).value;
      var n := |page.rows|;
      && (n <= 1 ==> c.hebrewNotes == "" && c.englishNotes == "")
      && n != 2
      && (n >= 3 ==> page.rows[n - 2].nextTd.Some? && page.rows[n - 1].nextTd.Some?
                     && c.hebrewNotes == Strip(page.rows[n - 2].nextTd.value)
                     && c.englishNotes == Strip(page.rows[n - 1].nextTd.value))
  {
    LegacyCourseOfUnpacked(page);
    DetailNotes(page.rows);
  }

  /** The notes read from a table's rows, when they can be read. */
  lemma DetailNotes(rows: seq<DetailRow>)
    requires NotesOf(SplitDetailRows(rows).1).Ok?
    ensures var notes := NotesOf(SplitDetailRows(rows).1).value;
      var n := |rows|;
      && (n <= 1 ==> notes == ("", ""))
      && n != 2
      && (n >= 3 ==> rows[n - 2].nextTd.Some? && rows[n - 1].nextTd.Some?
                     && notes == (Strip(rows[n - 2].nextTd.value), Strip(rows[n - 1].nextTd.value)))
  {
    var parts := SplitDetailRows(rows);
    if |rows| <= 1 {
      assert parts.1 == [];
    } else {
      var n := |rows|;
      assert parts.1 == rows[n - 2..];
      assert parts.1[0] == rows[n - 2] && parts.1[1] == rows[n - 1];
    }
  }

  /** A converted course is the record assembled from the unpacked title,
      bold and detail texts and from the schedule and note rows. */
  lemma LegacyCourseOfUnpacked(page: LegacyPage)
    requires LegacyCourseOf(page).Ok?
    ensures page.courseTitle.Some? && |Unbolded(page.bolds)| == 3 && |page.detailCells| == 6
    ensures FirstDigitRun(Unbolded(page.bolds)[2]).Ok?
    ensures var parts := SplitDetailRows(page.rows);
      && ScheduleOf(parts.0).Ok? && NotesOf(parts.1).Ok?
      && LegacyCourseOf(page).value ==
           Assembled(Strip(page.courseTitle.value), FirstDigitRun(Unbolded(page.bolds)[2]).value,
                     Unbolded(page.bolds), StripEach(page.detailCells),
                     ScheduleOf(parts.0).value, NotesOf(parts.1).value, !page.hasRedFont)
  {
    var faculty := Strip(page.courseTitle.value);
    var names := Unbolded(page.bolds);
    var courseId := FirstDigitRun(names[2]).value;
    var details := StripEach(page.detailCells);
    assert LegacyCourseOf(page) == ScheduleAndNotes(page, faculty, courseId, names, details);
  }
}
