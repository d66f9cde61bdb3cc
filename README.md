# hujiscrape, modelled in Dafny

hujiscrape scrapes the Hebrew University course catalog ("Shnaton"). It sends
form requests to the catalog site and retries failed requests with
exponential back-off. It then turns the returned HTML into `Course`, `Lesson`
and `Exam` records.

This project models the logic between the network and those records:

- **The current-layout converter** (`HtmlToCourse`). It rebuilds a course's
  weekly schedule from the ragged columns of each schedule row, sorts it by a
  textual key, and splits the faculty, department, course id and syllabus
  link out of the header texts. It also converts a results page into
  courses and an exam table into exams.
- **The lesson time split** (`HujiObjects`). A lesson's time is stored as
  "end-start" and split into its start and end.
- **The table-layout converter** (`LegacyHtmlToCourse`). It extracts the
  text fragments of a lesson cell, pads the cell columns in place, and
  aligns the lessons with the location column.
- **The request descriptors** (`FetchTasks`). These are fixed form fields,
  URL, method and browser identity.
- **The retry loop** shared by the fetcher and the collector (`RetryLoop`).
- **The collector object** (`Collectors`). It has a header merge, keeps the
  last parsed page, and checks whether a course was not found.
- **The single-course scraper and its batch loop** (`Scrapers`).
- **The study-track suppliers** (`RawSuppliers`). These read the page count
  and flatten the pages in order. They convert each course with the
  corrected table-layout converter; the converter as written fails on every
  course (see Findings), and `AsWrittenPageNeverSupplies` states what that
  does to a page.

HTML parsing is not modelled. Each converter reads a record (`Pages`, and
`LegacyPage`/`Node` in the table-layout module) holding the texts that the
parser's searches return, with `None` where a search finds nothing. An
exception the code raises is a `Result` error. Python's string operations
are written out in `Text`: `split`, `split()`, `strip`, `in`, `str`/`int`
and `re.findall(r'\d+')`. The network is a function from a request and an
attempt number to what that attempt did.

## Model

| member | source | states |
|---|---|---|
| HujiObjects.SplitTime | hujiscrape/huji_objects.py:25-36 | Neither the start nor the end contains a `-`. |
| HujiObjects.SplitTimeSpec | hujiscrape/huji_objects.py:25-36 | With exactly one `-`, the start is the text after it and the end the text before it, and end + "-" + start gives back the time. With none, or with two or more, both are "". |
| HujiObjects.SplitTimeAt | hujiscrape/huji_objects.py:30-36 | With the single `-` at index i, the start is `time[i+1..]` and the end is `time[..i]`. |
| LessonOrder.StrCmp | hujiscrape/html_to_object.py:29-30 | Python's string comparison: a three-way result in -1..1. |
| LessonOrder.StrCmpEq | hujiscrape/html_to_object.py:29-30 | String comparison is 0 exactly on equal strings. |
| LessonOrder.StrCmpFlip | hujiscrape/html_to_object.py:29-30 | String comparison is antisymmetric. |
| LessonOrder.StrCmpTrans | hujiscrape/html_to_object.py:29-30 | String comparison is transitive. |
| LessonOrder.KeyCmp | hujiscrape/html_to_object.py:29-30 | Tuple comparison of the sort keys: a three-way result. |
| LessonOrder.KeyCmpEq | hujiscrape/html_to_object.py:29-30 | Tuple comparison is 0 exactly on equal keys. |
| LessonOrder.KeyCmpFlip | hujiscrape/html_to_object.py:29-30 | Tuple comparison is antisymmetric. |
| LessonOrder.KeyCmpTrans | hujiscrape/html_to_object.py:29-30 | Tuple comparison is transitive. |
| LessonOrder.KeyCmpAt | hujiscrape/html_to_object.py:29-30 | The first differing component decides the tuple comparison. |
| LessonOrder.DayDecides | hujiscrape/html_to_object.py:29-30 | Lessons of the same semester are ordered by day first. |
| LessonOrder.StartDecides | hujiscrape/html_to_object.py:29-30 | With semester and day equal, the start time decides. |
| LessonOrder.EndDecides | hujiscrape/html_to_object.py:29-30 | With semester, day and start equal, the end time decides. |
| LessonOrder.SortLessonsSorted | hujiscrape/html_to_object.py:22-30 | The sorted schedule is ordered by (semester, day, start, end, passing type, location). |
| LessonOrder.SortLessonsPermutes | hujiscrape/html_to_object.py:22-30 | The sorted schedule is a permutation of its input. |
| LessonOrder.SortLessonsStable | hujiscrape/html_to_object.py:29 | For every key, the lessons with that key keep their input order, as Python's `sorted` is stable. |
| LessonOrder.InsertPermutes | hujiscrape/html_to_object.py:29 | One insertion step adds its element and loses nothing. |
| LessonOrder.InsertSorted | hujiscrape/html_to_object.py:29 | One insertion step keeps the list ordered. |
| LessonOrder.InsertWithKey | hujiscrape/html_to_object.py:29 | One insertion step puts its element before every element with the same key: the equal-key lessons of the result are the element followed by those of the list. |
| LessonOrderExample.SortSample | tests/test_html_to_object.py:11-52 | Sorting the nine lessons of the test gives exactly the expected order. |
| HtmlToCourse.NonBlank | hujiscrape/html_to_object.py:108 | No more texts than given. Every text kept is one of the given texts and is not blank, and every non-blank given text is kept. |
| HtmlToCourse.NonBlankFilter | hujiscrape/html_to_object.py:108 | The hour filter works part by part: the texts of a concatenation are the kept texts of each part, in order, with their repetitions. |
| HtmlToCourse.NonBlankSingle | hujiscrape/html_to_object.py:108 | A single text is kept exactly when it is not blank. |
| Text.StripEach | hujiscrape/html_to_object.py:110 | One text per place text, at the same position, each the place text stripped, with no whitespace at either end. |
| HtmlToCourse.StrippedNonBlank | hujiscrape/html_to_object.py:111 | No more note texts than notes. Each is non-empty with no whitespace at either end. |
| HtmlToCourse.StrippedNonBlankFilter | hujiscrape/html_to_object.py:111 | The note texts are the non-blank notes, in order, each stripped. |
| HtmlToCourse.Lecturers | hujiscrape/html_to_object.py:98-102 | At most one lecturer. None exactly when the name div is missing or blank. Otherwise the lecturer is the stripped name with its newlines removed, so it holds no newline. |
| Text.RemoveCharConcat | hujiscrape/html_to_object.py:102 | `replace('\n', '')` works part by part: the text of a concatenation is each part's text, in order. |
| Text.RemoveCharSingle | hujiscrape/html_to_object.py:102 | A single character is dropped exactly when it is a newline. |
| Text.RemoveCharAbsent | hujiscrape/html_to_object.py:102 | A name without newlines is kept unchanged. |
| HtmlToCourse.RowCount | hujiscrape/html_to_object.py:114 | The lesson count of a row is the largest of the semester, day, hour and place counts. |
| HtmlToCourse.RowLessons | hujiscrape/html_to_object.py:116-136 | A row yields exactly RowCount lessons, all with the row's number and its lecturer list. |
| HtmlToCourse.RowLessonFields | hujiscrape/html_to_object.py:117-123 | Lesson i takes the i-th semester, day, hour, place and note, or "" when out of range. Group and type come from element 0, or "". |
| HtmlToCourse.RowCountColumns | hujiscrape/html_to_object.py:114-116 | Groups, types and notes never change the count. A row whose four counted columns are all empty yields no lesson. |
| HtmlToCourse.BuildSchedule | hujiscrape/html_to_object.py:93-97 | The row loop builds the unsorted schedule: the rows after the title row, in order, numbered from 0. |
| HtmlToCourse.AppendRowLessons | hujiscrape/html_to_object.py:114-136 | The inner loop appends exactly that row's lessons to the schedule and keeps what was there. |
| HtmlToCourse.ScheduleLength | hujiscrape/html_to_object.py:93-136 | The schedule length is the sum of the per-row counts. |
| HtmlToCourse.ScheduleRows | hujiscrape/html_to_object.py:97-102 | Every lesson's row number names a row after the title row, and the lesson carries that row's lecturers. |
| HtmlToCourse.FacultyAndDepartmentSpec | hujiscrape/html_to_object.py:35-38 | The faculty is the stripped text before the first `:`. The department is the stripped text between the first and second `:`, or "" when there is no `:`. |
| HtmlToCourse.CourseIdSpec | hujiscrape/html_to_object.py:41 | The course id is the last whitespace-separated word of the stripped title. It is an IndexError for a blank title. |
| HtmlToCourse.CourseIdFound | hujiscrape/html_to_object.py:41 | A course id is found exactly when the title is not blank. |
| HtmlToCourse.FirstNumber | hujiscrape/html_to_object.py:53-54 | The credit points parse exactly when the text has a digit. The value is then the decimal value of the first run of digits. Otherwise the `.group()` on no match is an AttributeError. |
| HtmlToCourse.SyllabusUrlSpec | hujiscrape/html_to_object.py:79-86 | The syllabus URL is non-empty exactly when the href contains `javascript:OpenUrl(` and a quote. It is then the site origin plus the text between the first two quotes. |
| HtmlToCourse.Convert | hujiscrape/html_to_object.py:33-160 | The conversion gives the header fields, then the built schedule, sorted. |
| HtmlToCourse.HeaderOfSucceeds | hujiscrape/html_to_object.py:35-54 | The header converts exactly when school, title, subtitles, additional data, semester and credit texts are present, the title is not blank, and the credits hold a digit. |
| HtmlToCourse.HeaderOfFields | hujiscrape/html_to_object.py:35-41 | A converted course has no exams, is running, has no English notes and 0 weekly hours. Its id and its faculty/department come from the title and school as above. |
| HtmlToCourse.HeaderOfValue | hujiscrape/html_to_object.py:35-90 | A converted course's names and semester are the stripped subtitle, English subtitle and semester texts. Its credits are the first number of the stripped credits text. Its id and faculty/department come from the title and school. Its language, exam type and Hebrew notes are the stripped language, test and comments texts, or empty when the div is missing. Its syllabus link is the one rebuilt from the syllabus href, and its Moodle link is the Moodle href as it is, or empty. |
| HtmlToCourse.CourseOf | hujiscrape/html_to_object.py:33-160 | The conversion fails with the header's own exception when the header fails. Otherwise the course is the header record with only its schedule set. |
| HtmlToCourse.CourseOfSchedule | hujiscrape/html_to_object.py:93-139 | The course's schedule is sorted, is a permutation of the built schedule, keeps equal-key lessons in order, and has the sum of the row counts as its length. |
| HtmlToCourse.PageToCourses | hujiscrape/html_to_object.py:240-244 | One course per course fragment, in document order. The first failing fragment fails the page with its own exception. |
| HtmlToCourse.ConvertExams | hujiscrape/html_to_object.py:248-256 | The exam loop yields the exams of the rows after the first, or the first row's unpacking error. |
| HtmlToCourse.ExamsOfSpec | hujiscrape/html_to_object.py:249-255 | Exams convert exactly when a table exists and every data row has 6 cells. One exam per data row, with (semester, moed, date, hour, location, notes) stored as Exam(date, hour, notes, location, moed, semester). |
| HtmlToCourse.ExamsOf | hujiscrape/html_to_object.py:248-256 | A missing table is an AttributeError. Converted exams are one per data row. |
| LegacyHtmlToCourse.ContentText | html_to_object.py:35-57 | A text node gives its stripped text, or nothing when blank. A span gives its second child's stripped text, or the next `b`'s stripped text when that child shows `...`. It is an IndexError with fewer than two children and an AttributeError with no next `b`. A `b` gives its stripped text. Anything else gives nothing. It fails exactly on an unreadable span. |
| LegacyHtmlToCourse.ListTextInLessonTd | html_to_object.py:24-58 | The content loop yields the cell's texts in content order, or the cell-class assertion error, or the error of the first unreadable span. |
| LegacyHtmlToCourse.CellTexts | html_to_object.py:31-33 | A cell whose class list is not `['courseDet','text']` fails the assertion. A converted cell had that class list. |
| LegacyHtmlToCourse.CellTextsSpec | html_to_object.py:31-58 | A cell converts exactly when its class list is exactly `['courseDet','text']` and no span lacks its second child or its following `b`. Never more texts than contents. |
| LegacyHtmlToCourse.CollectedAtMostOne | html_to_object.py:35-57 | The loop yields at most one text per content piece. |
| LegacyHtmlToCourse.CellTextsMayBeEmpty | html_to_object.py:28-58 | A valid cell whose contents are all blank or ignored yields the empty list, contrary to the doc comment. |
| LegacyHtmlToCourse.Blanks | html_to_object.py:97 | `[''] * n`: n empty texts, none for n <= 0. |
| LegacyHtmlToCourse.Pad | html_to_object.py:97 | Padding keeps the column as a prefix, appends only "", reaches the lesson count, and leaves a long-enough column unchanged. |
| LegacyHtmlToCourse.PadColumns | html_to_object.py:96-97 | Pads columns 0..4 in place to the lesson count and leaves the rest untouched. It fails when there are fewer than 5 columns. |
| LegacyHtmlToCourse.RowLessonsSpec | html_to_object.py:93-113 | The lessons of a row number exactly as the location column. Lesson i takes columns 0..4 at i, group and type at index 0 of columns 5 and 6, and all of column 7 as lecturers. The index errors happen where they would. |
| LegacyHtmlToCourse.ScheduleLength | html_to_object.py:82-113 | The schedule length is the sum of the location-column lengths of the rows that have cells. |
| LegacyHtmlToCourse.LegacySchedule | html_to_object.py:81-113 | The schedule loop skips rows without cells and appends each row's aligned lessons in row order. |
| LegacyHtmlToCourse.ScheduleRow | html_to_object.py:84-97 | One row: no lessons without cells, otherwise its cells' texts aligned. |
| LegacyHtmlToCourse.AlignRow | html_to_object.py:93-113 | Pads the column lists in place and builds one lesson per location. |
| LegacyHtmlToCourse.ReadLessons | html_to_object.py:99-113 | The lesson loop over the padded lists yields the row's lessons, or the IndexError of a missing or empty group, type or lecturer column. |
| LegacyHtmlToCourse.SplitDetailRows | html_to_object.py:79-80 | After dropping the first row, schedule rows plus note rows are all the rows. The note rows are the last two, or fewer when there are fewer. |
| LegacyHtmlToCourse.Unbolded | html_to_object.py:69-70 | No more texts than bold elements. |
| LegacyHtmlToCourse.UnboldedFilter | html_to_object.py:69-70 | The bold texts work part by part: those of a concatenation are each part's, in order. |
| LegacyHtmlToCourse.UnboldedSingle | html_to_object.py:69-70 | A single bold element gives its stripped text, or nothing when its parent is a `font`. |
| Text.FirstDigitRun | html_to_object.py:73 | A match exists exactly when the text has a digit. The match is the first run of digits, non-empty and all digits. No match is an AttributeError. |
| Text.FirstDigitRunSpec | html_to_object.py:73 | The match is the leftmost run of digits taken whole: no digit before it and none right after it. |
| Text.RunsFirst | html_to_object.py:73 | The first run sits in the text with nothing qualifying before it and nothing qualifying right after it. |
| LegacyHtmlToCourse.LegacyCourseOf | html_to_object.py:63-80 | A missing course title is an AttributeError, and a bold count other than three is the unpacking error. A converted course has the stripped title as faculty and is running exactly when there is no red font. |
| LegacyHtmlToCourse.LegacyCourseOfFields | html_to_object.py:63-117 | A converted course is running exactly when there is no red font. Its faculty is the stripped title. Its English and Hebrew names are the first two non-font bold texts, and its id is the first digit run of the third. Test length, test type, points, semester and language are detail cells 0, 1, 3, 4 and 5, stripped. Its schedule is the schedule rows' lessons. Its notes are empty without note rows, and otherwise the stripped texts after the last two rows; exactly one note row never converts. |
| LegacyHtmlToCourse.NotesOf | html_to_object.py:79-80 | The last two detail rows are the notes, read at line 115: no note rows give two empty notes, one note row fails the unpacking, and two rows give their stripped texts, in order, when both have a following `td`. |
| LegacyHtmlToCourse.LegacyConvertAsWritten | html_to_object.py:63-117 | As written, an earlier failure is passed on unchanged, and whenever everything before the constructor call succeeds the call raises TypeError. |
| LegacyHtmlToCourse.AsWrittenCounterexample | html_to_object.py:63-117 | A page with a title, three bolds, six detail cells and no rows converts when corrected, yet fails as written. |
| FetchTasks.NewFetchTask | hujiscrape/fetch_tasks.py:4-11 | Missing data, query parameters and headers become empty maps. Given ones are kept. |
| FetchTasks.ShnatonFetchTask | hujiscrape/fetch_tasks.py:14-28 | Catalog tasks POST to the fixed URL. Their only header is a user-agent, one of the two listed. |
| FetchTasks.NewExamFetchTask | hujiscrape/fetch_tasks.py:31-42 | The exam form is exactly {peula: CourseD, year, detail: examDates, course: str(id)}. The id is kept as text, and the year is kept. |
| FetchTasks.NewCourseFetchTask | hujiscrape/fetch_tasks.py:45-57 | The course form is exactly {peula: Simple, maslul: 0, shana: 0, year, course: id as given}. The id is kept as text, and the year is kept. |
| FetchTasks.CourseIdForms | hujiscrape/fetch_tasks.py:53-56 | An integer id and its decimal text give the same course id but different course forms. |
| RetryLoop.Judge | hujiscrape/fetchers.py:59-61 | A response succeeds unless the status check is on and the status is 400 or more. Client errors, timeouts and error statuses are retried. Anything else is not. |
| RetryLoop.RetryFrom | hujiscrape/fetchers.py:46-65 | From attempt a on: the call stops at an attempt between a and `retries`, with one back-off per attempt before it, and that attempt decides the result. |
| RetryLoop.Retry | hujiscrape/fetchers.py:46-65 | With `retries` < 1, no request, no back-off and a `None` result. Otherwise between 1 and `retries` requests, one back-off fewer, and the last attempt decides the result. |
| RetryLoop.FetchWithRetries | hujiscrape/fetchers.py:46-65 | The retry loop does what the retry specification says: the result, the number of requests and the back-offs. |
| RetryLoop.ResponseText | hujiscrape/fetchers.py:36-44 | The body of the returned response. The exception is passed on. Reading the `None` of an empty loop is an AttributeError. |
| RetryLoop.RetryShape | hujiscrape/fetchers.py:46-65 | At most `retries` requests, and none with a `None` result when `retries` < 1. A back-off of 2^n follows each attempt n but the last. Every earlier attempt failed retryably, and the last one decides the result. |
| RetryLoop.RetryStopsAt | hujiscrape/fetchers.py:47-64 | The call stops at the first attempt that does not fail retryably, or at attempt `retries`, and that attempt decides the result. |
| RetryLoop.AllAttemptsFail | hujiscrape/fetchers.py:61-65 | When every attempt fails, exactly `retries` requests are made with `retries`-1 back-offs, and the last attempt's own exception is raised. |
| RetryLoop.ReturnedResponse | hujiscrape/fetchers.py:49-60 | A returned response is what the last request answered. With the status check, its status is below 400. |
| RetryLoop.FatalNotRetried | hujiscrape/fetchers.py:61 | Any exception other than a client error or timeout ends the call at once with that exception. |
| RetryLoop.StatusCheck | hujiscrape/collectors.py:47-57 | Without the status check (the collector), an error status is returned at the first attempt. With it (the fetcher), that status is retried. |
| RetryLoop.NoAttemptNoText | hujiscrape/fetchers.py:36-47 | With fewer than one retry, no request is made and reading the text fails. |
| Collectors.MergeHeaders | hujiscrape/collectors.py:23-24 | The headers are the default user-agent map overridden by the caller's: the caller wins on shared keys, and no key of either is lost. |
| Collectors.CourseOrMissing | hujiscrape/collectors.py:90-97 | No page exactly when the stripped course-title text contains the not-found marker. Otherwise the page itself, or an AttributeError when the title div is missing. |
| Collectors.ShnatonFetcher.constructor | hujiscrape/collectors.py:15-30 | Missing data and parameters become empty maps, the headers are merged, and no page is kept yet. |
| Collectors.ShnatonFetcher.ForCourse | hujiscrape/collectors.py:75-84 | The course collector's fixed form fields, URL, method and default retries. |
| Collectors.ShnatonFetcher.ForExam | hujiscrape/collectors.py:103-110 | The exam collector's fixed form fields, URL, method and default retries. |
| Collectors.ShnatonFetcher.Afetch | hujiscrape/collectors.py:39-62 | Fetches with the retry loop without the status check. It keeps and returns the parsed page, and on an exception keeps the previous page. |
| Collectors.ShnatonFetcher.AfetchCourse | hujiscrape/collectors.py:86-97 | The page is kept, then checked for the not-found marker. |
| Collectors.FetchCourseOnce | hujiscrape/collectors.py:64-97 | A new course collector's `soup` is the page its fetch parsed, or None when the fetch raised. |
| Scrapers.FetcherFetch | hujiscrape/fetchers.py:36-65 | A fetcher with fewer than one retry never returns a text: reading the `None` is an AttributeError. A text is only returned with at least one retry. |
| Scrapers.FetchedText | hujiscrape/fetchers.py:36-65 | A text the default fetcher hands back is the body of its last request's response, which had a status below 400, after at most `retries` attempts. |
| Scrapers.ScrapeSingleCourse | hujiscrape/scrapers.py:56-79 | When missing courses are not allowed, a course that comes back is always present. |
| Scrapers.FetchFailurePassedOn | hujiscrape/scrapers.py:58 | A failed course request fails the course with the same exception. |
| Scrapers.MissingCourse | hujiscrape/scrapers.py:60-64 | A response containing the marker is a ValueError naming the course id and year, or no course when missing courses are allowed. |
| Scrapers.MissingNeverParsed | hujiscrape/scrapers.py:58-64 | The marker decision is taken on the raw text before parsing: the parser does not affect it. |
| Scrapers.ParsedCourse | hujiscrape/scrapers.py:66-79 | Otherwise a parse error is re-raised unchanged. Without an exam request the parsed course comes back as it is. A returned course is the parsed course with only its exams changed, and they are set whenever its scrape task has an exam request. |
| Scrapers.WithExams | hujiscrape/scrapers.py:74-77 | Without an exam task the course is unchanged. With one, only `exams` changes, and it is set. |
| Scrapers.AttachedExams | hujiscrape/scrapers.py:74-77 | The attached exams are exactly the exam parser's result on the exam response. An exam fetch failure or an exam parse failure fails the course with that same exception. |
| Scrapers.ScrapeTasks | hujiscrape/scrapers.py:44-47 | One task per id, in order: the course request for that id, and the exam request for that id exactly when exams are included. |
| Scrapers.InOrder | hujiscrape/scrapers.py:49 | The scrape tasks in completion order. |
| Scrapers.Scrape | hujiscrape/scrapers.py:41-54 | The batch loop keeps each non-None course in completion order. The first exception ends the batch. |
| Scrapers.KeptCourses | hujiscrape/scrapers.py:49-52 | No more courses than tasks, exactly one per task when missing courses are not allowed, and each course is one task's result. |
| Scrapers.ScrapeCount | hujiscrape/scrapers.py:44-54 | `scrape` returns at most as many courses as ids, and exactly as many when missing courses are not allowed. |
| RawSuppliers.StaticCourseSupplier.constructor | raw_suppliers.py:39-41 | The supplier holds the course it is given. |
| RawSuppliers.StaticCourseSupplier.Supply | raw_suppliers.py:43-44 | Returns exactly the stored course. |
| RawSuppliers.MaslulPageSupply | raw_suppliers.py:76-79 | With the corrected table-layout converter (see Findings): one course per course-title fragment, in document order. Any failure fails the page. As written, every non-empty page fails (RawSuppliers.AsWrittenPageNeverSupplies). |
| RawSuppliers.PageCount | raw_suppliers.py:101-102 | The page count exists exactly when the text has at least two numbers. It is the value of the second number, and otherwise an IndexError. |
| RawSuppliers.PageCountSecondNumber | raw_suppliers.py:102 | For a text made of digit-free text, a first number, a digit-free gap, a second number, then anything not continuing it (further numbers included), the page count is the second number's value. |
| Text.RunsOfTwoPieces | raw_suppliers.py:102 | In such a text the first two runs are the two numbers, and the remaining runs are those of what follows. |
| RawSuppliers.AllPagesSupply | raw_suppliers.py:100-110 | A missing page-information text is an AttributeError. An unreadable count fails the supply with its IndexError. A supply that succeeds read a count. Its pages are converted with the corrected converter. |
| RawSuppliers.RequestedPages | raw_suppliers.py:104-105 | Pages 0 to n-1, in order, each once. |
| RawSuppliers.AllPagesResult | raw_suppliers.py:98-110 | With the corrected converter: the supply fails exactly when the count cannot be read or a page fails. Otherwise it is the page results concatenated in page order, as long as their total. |
| RawSuppliers.FlattenLength | raw_suppliers.py:110 | The flattened length is the sum of the page lengths. |
| RawSuppliers.FlattenAt | raw_suppliers.py:110 | Each page's courses appear in order, after all the courses of earlier pages. |
| RawSuppliers.NoDeduplication | raw_suppliers.py:110 | A course present on two pages appears at least twice. |
| RawSuppliers.AsWrittenPageNeverSupplies | raw_suppliers.py:79 | With the table-layout converter as written, a page holding any course fails. |

## Left out

- HTML parsing and traversal (BeautifulSoup's `find`, `find_all`, `select_one`, `.text`, `find_next`) are not modelled. The converters read pre-extracted texts.
- The network, aiohttp sessions, timeouts, the semaphores, `asyncio.gather` and `as_completed` are not modelled. A request's attempts are a function of the attempt number. The completion order of `scrape` is a given permutation.
- When several pages fail, `gather` raises whichever fails first in time. The model raises the first in page order.
- The random jitter of the back-off is not modelled; each back-off is its whole-second part, 2^n. The random choice of user agent is an index given by the caller.
- `print` logging is not modelled.
- The float `exam_length` of the current layout is not modelled (floating point).
- The weekly-hours lookup searches for a class name with a leading dot, which no page carries. The model always gives 0 weekly hours.
- The commented-out converter of the current layout and the empty `_extract_lesson_locations` are not modelled.
- Scrapers.ScrapeSingleCourse: the scraper's fetcher is injected (`fetcher or Fetcher()`), so the model takes its `fetch` as a parameter; `Scrapers.FetcherFetch` is the default fetcher's. The scraper passes the response text straight to the converters. The model takes the two converters as parameters (`HtmlToCourse.convert` and `HtmlToExams.convert` run on the parsed page), so a parsed course's own fields are not restated there.
- Scrapers.ScrapeTasks: `scrape` builds its tasks with a `fetch_exam` argument, and reads an `exam_fetch_task` attribute, that the shown `CourseFetchTask` does not have. As written, the unexpected `fetch_exam` keyword makes the constructor raise TypeError, so `scrape` fails for any non-empty id list (hujiscrape/scrapers.py:45 against hujiscrape/fetch_tasks.py:46). The model instead takes the evident intent: its task pairs a course request with an optional exam request.
- Scrapers.ScrapeTasks: every task gets the same user-agent index rather than a fresh random one.
- The table-layout page (`LegacyPage`) holds the lesson table rows and detail cells as found. A page lacking those tables, which would raise AttributeError, is not modelled.
- LegacyHtmlToCourse.LegacyCourseOf: points and test length are kept as the stripped texts the code passes. The record's `int` annotations are not enforced by Python.
- `RequestCourseSupplier`, `ExamSupplier` and the root `collectors.py` are not modelled: they are stubs, or call methods the shown classes do not have.
- Text.IsDigit: a digit is one of `0`-`9`. Python's `\d` and `int()` also accept the other Unicode decimal digits (category Nd, such as Arabic-Indic digits), so the model's numbers and digit runs are those of ASCII text only.
- RawSuppliers.AllPagesSupply: a missing `facultyTitle` div and a missing following `td` both raise an AttributeError from reading a `None`. The model folds them into one missing page-information text with the `find_next` message.
- Collectors.ShnatonFetcher: the `soup` property only returns the cached field, so the model reads the field directly.
- `hujiscrape.py` (the command-line driver), `magics.py` (constants only; the column indexes are copied) and `__init__.py` are not modelled.

## Findings

| source | as written | input that shows it | evidently intended | confidence | as-written member | corrected member |
|---|---|---|---|---|---|---|
| html_to_object.py:116-117 | The table-layout `convert` calls `Course(...)` with 13 positional values. The `Course` it imports (huji_objects.py:21-34) has 12 fields, so every call that gets this far raises TypeError. | A page with a title, three non-font bolds (the last holding a digit), six detail cells and no detail rows: every step succeeds until the constructor call. | Build the course from the 12 declared fields plus whether it is running. | not executed | LegacyHtmlToCourse.AsWrittenCounterexample | LegacyHtmlToCourse.LegacyCourseOfFields |
