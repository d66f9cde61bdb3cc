/** Request descriptors for the catalog site: a target, a method and the form
    fields, headers and query parameters to send. They are built once and
    never changed, so they are values; building one touches no network. */
module FetchTasks {
  import opened Wrappers
  import opened Text

  /** A form or query value: the code sends both texts and integers. */
  datatype FormValue = Str(s: string) | Int(i: int)

  /** Python's `str(x)` on a form value. */
  function FormText(v: FormValue): string {
    match v
    case Str(s) => s
    case Int(i) => IntToString(i)
  }

  const ShnatonUrl := "https://shnaton.huji.ac.il/index.php"

  /** The two browser identities a catalog task may present. */
  const UserAgents := [
    "Mozilla/5.0 (Windows NT 10.0; Win64; x64) AppleWebKit/537.36 (KHTML, like Gecko) Chrome/114.0.0.0 Safari/537.36",
    "Mozilla/5.0 (Windows NT 10.0; Win64; x64) AppleWebKit/537.36 (KHTML, like Gecko) Chrome/134.0.0.0 Safari/537.36"
  ]

  datatype FetchTask = FetchTask(
    url: string,
    httpMethod: string,
    data: map<string, FormValue>,
    queryParams: map<string, FormValue>,
    headers: map<string, string>)

  /** `FetchTask.__init__`: missing maps become empty ones. */
  function NewFetchTask(url: string, httpMethod: string, data: Option<map<string, FormValue>>,
                        queryParams: Option<map<string, FormValue>>,
                        headers: Option<map<string, string>>): (t: FetchTask)
    ensures t.url == url && t.httpMethod == httpMethod
    ensures data.None? ==> t.data == map[]
    ensures queryParams.None? ==> t.queryParams == map[]
    ensures headers.None? ==> t.headers == map[]
    ensures data.Some? ==> t.data == data.value
    ensures queryParams.Some? ==> t.queryParams == queryParams.value
    ensures headers.Some? ==> t.headers == headers.value
  {
    FetchTask(url, httpMethod, data.GetOr(map[]), queryParams.GetOr(map[]), headers.GetOr(map[]))
  }

  /** `ShnatonFetchTask.__init__`; `agent` is the index `random.choice`
      picks. */
  function ShnatonFetchTask(data: Option<map<string, FormValue>>, queryParams: Option<map<string, FormValue>>,
                            agent: nat): (t: FetchTask)
    requires agent < |UserAgents|
    ensures t.url == ShnatonUrl && t.httpMethod == "POST"
    ensures t.headers.Keys == {"user-agent"} && t.headers["user-agent"] in UserAgents
  {
    NewFetchTask(ShnatonUrl, "POST", data, queryParams, Some(map["user-agent" := UserAgents[agent]]))
  }

  /** A task to fetch a course's exam dates. */
  datatype ExamFetchTask = ExamFetchTask(task: FetchTask, courseId: string, year: int)

  /** A task to fetch a course's catalog page. */
  datatype CourseFetchTask = CourseFetchTask(task: FetchTask, courseId: string, year: int)

  function NewExamFetchTask(courseId: FormValue, year: int, agent: nat): (e: ExamFetchTask)
    requires agent < |UserAgents|
    ensures e.courseId == FormText(courseId) && e.year == year
    ensures e.task.data.Keys == {"peula", "year", "detail", "course"}
    ensures e.task.data["peula"] == Str("CourseD") && e.task.data["year"] == Int(year)
    ensures e.task.data["detail"] == Str("examDates") && e.task.data["course"] == Str(FormText(courseId))
    ensures e.task.queryParams == map[]
  {
    var data := map["peula" := Str("CourseD"), "year" := Int(year), "detail" := Str("examDates"),
                    "course" := Str(FormText(courseId))];
    ExamFetchTask(ShnatonFetchTask(Some(data), None, agent), FormText(courseId), year)
  }

  /** The course form carries the id as given, not its text form. */
  function NewCourseFetchTask(courseId: FormValue, year: int, agent: nat): (c: CourseFetchTask)
    requires agent < |UserAgents|
    ensures c.courseId == FormText(courseId) && c.year == year
    ensures c.task.data.Keys == {"peula", "maslul", "shana", "year", "course"}
    ensures c.task.data["peula"] == Str("Simple") && c.task.data["maslul"] == Int(0)
    ensures c.task.data["shana"] == Int(0) && c.task.data["year"] == Int(year)
    ensures c.task.data["course"] == courseId
    ensures c.task.queryParams == map[]
  {
    var data := map["peula" := Str("Simple"), "maslul" := Int(0), "shana" := Int(0), "year" := Int(year),
                    "course" := courseId];
    CourseFetchTask(ShnatonFetchTask(Some(data), None, agent), FormText(courseId), year)
  }

  /** An integer id and its text form name the same course but fill the
      course form differently. */
  lemma CourseIdForms(n: nat, year: int, agent: nat)
    requires agent < |UserAgents|
    ensures NewCourseFetchTask(Int(n), year, agent).courseId == NewCourseFetchTask(Str(NatToDecimal(n)), year, agent).courseId
    ensures NewCourseFetchTask(Int(n), year, agent).task != NewCourseFetchTask(Str(NatToDecimal(n)), year, agent).task
  {
    var a := NewCourseFetchTask(Int(n), year, agent);
    var b := NewCourseFetchTask(Str(NatToDecimal(n)), year, agent);
    assert a.task.data["course"] != b.task.data["course"];
  }
}
