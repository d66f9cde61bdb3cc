/** What the converters read from a parsed catalog page. BeautifulSoup's
    searches (`find`, `find_all`, `select_one`) and `.text` are not modelled;
    instead each record holds the texts those searches return, with `None`
    where a search finds nothing. */
module Pages {
  import opened Wrappers

  /** One `div.row` of a course's schedule: the texts of the child divs of
      each column container, in document order, or `None` when the row has
      no such container. */
  datatype ScheduleRow = ScheduleRow(
    lecturerName: Option<string>,     // div.lecturer-name
    groups: Option<seq<string>>,      // div.groups > div
    semesters: Option<seq<string>>,   // div.semester > div
    days: Option<seq<string>>,        // div.days > div.day
    hours: Option<seq<string>>,       // div.hour > div
    lessonTypes: Option<seq<string>>, // div.lesson > div
    places: Option<seq<string>>,      // div.places > div.place-item
    notes: Option<seq<string>>)       // div.note > div

  /** The texts inside `div.additional-data`. The weekly-hours lookup searches
      for a class that no page carries, so it is not part of the record. */
  datatype AdditionalData = AdditionalData(
    semester: Option<string>,         // div.additional-data-semester
    studentPoints: Option<string>,    // div.additional-data-student-points
    test: Option<string>,             // div.additional-data-test
    language: Option<string>)         // div.additional-data-language

  /** The fragment of a search-results page that holds one course: the
      parent element of a `div.courseTitle`. */
  datatype CoursePage = CoursePage(
    school: Option<string>,           // div.data-school
    title: Option<string>,            // div.title
    subtitle: Option<string>,         // div.subtitle
    subtitleEng: Option<string>,      // div.subtitle-eng
    additional: Option<AdditionalData>,
    comments: Option<string>,         // div#comments-course-NumCourse
    syllabusHref: Option<string>,     // href of .cyllabus-cource, if it has one
    moodleHref: Option<string>,       // href of .moodle-cource, if it has one
    rows: seq<ScheduleRow>)           // every div.row, the title row first

  /** A fetched catalog response: its raw text, and the views the parsers
      take of it. Converting a whole response as one course reads the first
      match of each search in the document, which `course` holds. */
  datatype Document = Document(
    text: string,
    courseTitle: Option<string>,      // div.data-course-title
    course: CoursePage,
    courseFragments: seq<CoursePage>, // the parent of every div.courseTitle
    examTable: Option<seq<seq<string>>>) // the cells of every tr of the first table
}
