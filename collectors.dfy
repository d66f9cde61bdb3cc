/** The older page collector: an object that holds one request, sends it with
    the retry loop (without a status check) and keeps the last page it
    parsed. Parsing the response text into a page is BeautifulSoup's work
    and is a parameter here. */
module Collectors {
  import opened Wrappers
  import opened Text
  import opened FetchTasks
  import opened RetryLoop
  import opened Pages

  const DefaultUserAgent :=
    "Mozilla/5.0 (Windows NT 10.0; Win64; x64) AppleWebKit/537.36 (KHTML, like Gecko) Chrome/114.0.0.0 Safari/537.36"

  const DefaultHeaders: map<string, string> := map["user-agent" := DefaultUserAgent]

  const DefaultRetries := 3

  /** The text the catalog shows in place of a course it does not have. */
  const CourseNotFoundText := "לא נמצא קורס"

  /** The default headers overridden by the caller's: the caller wins on a
      shared key, and no key of either is lost. */
  function MergeHeaders(headers: Option<map<string, string>>): (m: map<string, string>)
    ensures m.Keys == DefaultHeaders.Keys + headers.GetOr(map[]).Keys
    ensures forall k :: k in headers.GetOr(map[]) ==> m[k] == headers.GetOr(map[])[k]
    ensures forall k :: k in DefaultHeaders && k !in headers.GetOr(map[]) ==> m[k] == DefaultHeaders[k]
  {
    DefaultHeaders + headers.GetOr(map[])
  }

  /** The not-found check of `ShantonCourseFetcher.afetch`: no page when the
      stripped course-title text contains the marker, the page otherwise, and
      an AttributeError when the page has no course-title element. */
  function CourseOrMissing(page: Document): (r: Result<Option<Document>>)
    ensures r.Ok? <==> page.courseTitle.Some?
    ensures r == Ok(None) <==> page.courseTitle.Some? && Contains(Strip(page.courseTitle.value), CourseNotFoundText)
    ensures r.Ok? && r.value.Some? ==> r.value.value == page
  {
    match page.courseTitle
    case None => Err(AttributeError("'NoneType' object has no attribute 'text'"))
    case Some(title) => if Contains(Strip(title), CourseNotFoundText) then Ok(None) else Ok(Some(page))
  }

  class ShnatonFetcher {
    const httpMethod: string
    const url: string
    const data: map<string, FormValue>
    const params: map<string, FormValue>
    const headers: map<string, string>
    const retries: int
    /** The last page parsed, `None` before the first fetch completes; the
        `soup` property reads it as it is. */
    var soup: Option<Document>

    constructor (httpMethod: string, url: string, headers: Option<map<string, string>>,
                 data: Option<map<string, FormValue>>, params: Option<map<string, FormValue>>, retries: int)
      ensures this.httpMethod == httpMethod && this.url == url && this.retries == retries
      ensures this.data == data.GetOr(map[]) && this.params == params.GetOr(map[])
      ensures this.headers == MergeHeaders(headers)
      ensures soup == None
    {
      this.httpMethod := httpMethod;
      this.url := url;
      this.data := data.GetOr(map[]);
      this.params := params.GetOr(map[]);
      this.headers := MergeHeaders(headers);
      this.retries := retries;
      soup := None;
    }

    /** `ShantonCourseFetcher.__init__`. */
    constructor ForCourse(courseId: FormValue, year: int)
      ensures httpMethod == "POST" && url == ShnatonUrl && retries == DefaultRetries
      ensures data == map["peula" := Str("Simple"), "maslul" := Int(0), "shana" := Int(0),
                          "year" := Int(year), "course" := courseId]
      ensures params == map[] && headers == DefaultHeaders
      ensures soup == None
    {
      httpMethod := "POST";
      url := ShnatonUrl;
      data := map["peula" := Str("Simple"), "maslul" := Int(0), "shana" := Int(0),
                  "year" := Int(year), "course" := courseId];
      params := map[];
      headers := MergeHeaders(None);
      retries := DefaultRetries;
      soup := None;
    }

    /** `ExamFetcher.__init__`. */
    constructor ForExam(courseId: FormValue, year: int)
      ensures httpMethod == "POST" && url == ShnatonUrl && retries == DefaultRetries
      ensures data == map["peula" := Str("CourseD"), "year" := Int(year), "detail" := Str("examDates"),
                          "course" := courseId]
      ensures params == map[] && headers == DefaultHeaders
      ensures soup == None
    {
      httpMethod := "POST";
      url := ShnatonUrl;
      data := map["peula" := Str("CourseD"), "year" := Int(year), "detail" := Str("examDates"),
                  "course" := courseId];
      params := map[];
      headers := MergeHeaders(None);
      retries := DefaultRetries;
      soup := None;
    }

    /** Sends the request through the retry loop, parses the body and keeps
        the page; on an exception the kept page is the previous one. */
    method Afetch(outcome: nat -> Outcome, parse: string -> Document) returns (r: Result<Document>)
      modifies this
      ensures var text := ResponseText(Retry(retries, outcome, false));
        && (text.Ok? ==> r == Ok(parse(text.value)) && soup == Some(parse(text.value)))
        && (text.Err? ==> r == Err(text.error) && soup == old(soup))
    {
      var run := FetchWithRetries(retries, outcome, false);
      var text :- ResponseText(run);
      soup := Some(parse(text));
      return Ok(parse(text));
    }

    /** `ShantonCourseFetcher.afetch`: the page is kept even when it says the
        course is missing. */
    method AfetchCourse(outcome: nat -> Outcome, parse: string -> Document) returns (r: Result<Option<Document>>)
      modifies this
      ensures var text := ResponseText(Retry(retries, outcome, false));
        && (text.Ok? ==> r == CourseOrMissing(parse(text.value)) && soup == Some(parse(text.value)))
        && (text.Err? ==> r == Err(text.error) && soup == old(soup))
    {
      var page :- Afetch(outcome, parse);
      return CourseOrMissing(page);
    }
  }

  /** A course fetcher reports a missing course only for a page whose title
      says so, and then still remembers that page. */
  method FetchCourseOnce(courseId: FormValue, year: int, outcome: nat -> Outcome, parse: string -> Document)
    returns (r: Result<Option<Document>>, kept: Option<Document>)
    ensures var text := ResponseText(Retry(DefaultRetries, outcome, false));
      && (text.Ok? ==> r == CourseOrMissing(parse(text.value)) && kept == Some(parse(text.value)))
      && (text.Err? ==> r == Err(text.error) && kept == None)
  {
    var fetcher := new ShnatonFetcher.ForCourse(courseId, year);
    r := fetcher.AfetchCourse(outcome, parse);
    kept := fetcher.soup;
  }
}
