/** The course scraper: fetch each requested course page, decide whether the
    course is missing, parse it, attach its exams, and gather the courses in
    the order their requests complete. */
module Scrapers {
  import opened Wrappers
  import opened Text
  import opened HujiObjects
  import opened FetchTasks
  import opened RetryLoop

  /** The text a catalog response contains when it has no such course. */
  const MissingCourseText := "לא נמצא קורס"

  /** A course request and, when exams are wanted, the request for its exam
      dates. */
  datatype ScrapeTask = ScrapeTask(course: CourseFetchTask, exams: Option<ExamFetchTask>)

  /** What the scraper is given: its fetcher's `fetch`, from a request to
      the response text or the exception it raised, and its two converters
      from a response text to a course and to a list of exams
      (`HtmlToCourse.convert` and `HtmlToExams.convert`, run on the parsed
      page). */
  datatype Environment = Environment(
    fetch: FetchTask -> Result<string>,
    convert: string -> Result<Course>,
    convertExams: string -> Result<seq<Exam>>)

  /** The `fetch` of a `Fetcher` with `retries` attempts whose requests do
      what `network` says: the retry loop with the status check, then the
      body. The scraper's default fetcher has 3 attempts. */
  function FetcherFetch(retries: int, network: FetchTask -> nat -> Outcome): (fetch: FetchTask -> Result<string>)
    ensures retries < 1 ==> forall task :: fetch(task) == Err(AttributeError("'NoneType' object has no attribute 'text'"))
    ensures forall task :: fetch(task).Ok? ==> retries >= 1
  {
    task => FetchedBody(retries, network, task)
  }

  function FetchedBody(retries: int, network: FetchTask -> nat -> Outcome, task: FetchTask): (r: Result<string>)
    ensures retries < 1 ==> r == Err(AttributeError("'NoneType' object has no attribute 'text'"))
  {
    ResponseText(Retry(retries, network(task), true))
  }

  /** A text the fetcher hands back is the body of the response to its last
      request, and that response had a status below 400. */
  lemma FetchedText(retries: int, network: FetchTask -> nat -> Outcome, task: FetchTask)
    ensures var run := Retry(retries, network(task), true);
      FetcherFetch(retries, network)(task).Ok? ==>
        && 1 <= run.attempts <= retries
        && network(task)(run.attempts).Responded?
        && network(task)(run.attempts).response.status < 400
        && FetcherFetch(retries, network)(task).value == network(task)(run.attempts).response.body
  {
    ReturnedResponse(retries, network(task), true);
    RetryShape(retries, network(task), true);
  }

  function NotFoundMessage(task: CourseFetchTask): string {
    "Course " + task.courseId + " not found in " + IntToString(task.year)
  }

  /** `_scrape_single_course`: fetch, the missing-course decision, then the
      parse; the decisions are stated one by one in the lemmas below. */
  function ScrapeSingleCourse(task: ScrapeTask, allowMissing: bool, env: Environment): (r: Result<Option<Course>>)
    ensures r.Ok? && !allowMissing ==> r.value.Some?
  {
    var html :- env.fetch(task.course.task);
    if Contains(html, MissingCourseText) then
      if !allowMissing then Err(ValueError(NotFoundMessage(task.course))) else Ok(None)
    else
      var course :- ParseCourse(task, html, env);
      Ok(Some(course))
  }

  /** Parsing a course response that is not a missing-course page. */
  function ParseCourse(task: ScrapeTask, html: string, env: Environment): Result<Course> {
    var course :- env.convert(html);
    WithExams(course, task.exams, env)
  }

  /** The exam step: without an exam task the course is returned as it is;
      with one, only its exams change, and they are set. */
  function WithExams(course: Course, examTask: Option<ExamFetchTask>, env: Environment): (r: Result<Course>)
    ensures examTask.None? ==> r == Ok(course)
    ensures r.Ok? ==> r.value.(exams := course.exams) == course
    ensures r.Ok? && examTask.Some? ==> r.value.exams.Some?
  {
    match examTask
    case None => Ok(course)
    case Some(task) =>
      var examsHtml :- env.fetch(task.task);
      var exams :- env.convertExams(examsHtml);
      Ok(course.(exams := Some(exams)))
  }

  /** A failed course request fails the course with the same exception. */
  lemma FetchFailurePassedOn(task: ScrapeTask, allowMissing: bool, env: Environment)
    requires env.fetch(task.course.task).Err?
    ensures ScrapeSingleCourse(task, allowMissing, env) == Err(env.fetch(task.course.task).error)
  {
  }

  /** A text holding the marker is an error naming the course and the year,
      or no course when missing courses are allowed. */
  lemma MissingCourse(task: ScrapeTask, allowMissing: bool, env: Environment)
    requires env.fetch(task.course.task).Ok? && Contains(env.fetch(task.course.task).value, MissingCourseText)
    ensures ScrapeSingleCourse(task, allowMissing, env) ==
      if allowMissing then Ok(None) else Err(ValueError(NotFoundMessage(task.course)))
  {
  }

  /** Any other text is parsed; a parse error is raised again unchanged.
      Without an exam request the parsed course comes back as it is; with
      one, it comes back with only its exams changed, and they are set. */
  lemma ParsedCourse(task: ScrapeTask, allowMissing: bool, env: Environment)
    requires env.fetch(task.course.task).Ok? && !Contains(env.fetch(task.course.task).value, MissingCourseText)
    ensures var parsed := env.convert(env.fetch(task.course.task).value);
      var r := ScrapeSingleCourse(task, allowMissing, env);
      && (parsed.Err? ==> r == Err(parsed.error))
      && (task.exams.None? && parsed.Ok? ==> r == Ok(Some(parsed.value)))
      && (r.Ok? ==> parsed.Ok? && r.value.Some? && r.value.value.(exams := parsed.value.exams) == parsed.value
                    && (task.exams.Some? ==> r.value.value.exams.Some?))
  {
  }

  /** A scraped course as the batch loop keeps it: nothing for `None`. */
  function Kept(allowMissing: bool, env: Environment): ScrapeTask -> Result<seq<Course>> {
    task =>
      var course :- ScrapeSingleCourse(task, allowMissing, env);
      if course.Some? then Ok([course.value]) else Ok([])
  }

  /** One task per id, in the order of the ids; `agent` stands for the
      user-agent choice each task makes. */
  function ScrapeTasks(ids: seq<FormValue>, year: int, includeExams: bool, agent: nat): (tasks: seq<ScrapeTask>)
    requires agent < |UserAgents|
    ensures |tasks| == |ids|
    ensures forall i :: 0 <= i < |ids| ==> tasks[i].course == NewCourseFetchTask(ids[i], year, agent)
    ensures forall i :: 0 <= i < |ids| ==> (tasks[i].exams.Some? <==> includeExams)
    ensures includeExams ==> forall i :: 0 <= i < |ids| ==> tasks[i].exams == Some(NewExamFetchTask(ids[i], year, agent))
  {
    seq(|ids|, i requires 0 <= i < |ids| =>
      ScrapeTask(NewCourseFetchTask(ids[i], year, agent),
                 if includeExams then Some(NewExamFetchTask(ids[i], year, agent)) else None))
  }

  /** `order` lists each of the `n` tasks once, in the order they complete. */
  predicate IsCompletionOrder(order: seq<nat>, n: nat) {
    && |order| == n
    && (forall i :: 0 <= i < |order| ==> order[i] < n)
    && (forall i, j :: 0 <= i < j < |order| ==> order[i] != order[j])
  }

  function InOrder(tasks: seq<ScrapeTask>, order: seq<nat>): (completed: seq<ScrapeTask>)
    requires forall i :: 0 <= i < |order| ==> order[i] < |tasks|
    ensures |completed| == |order|
    ensures forall i :: 0 <= i < |order| ==> completed[i] == tasks[order[i]]
  {
    seq(|order|, i requires 0 <= i < |order| => tasks[order[i]])
  }

  /** `SingleCourseScraper.scrape`: the courses in completion order, without
      the missing ones; the first exception ends the batch. */
  method Scrape(ids: seq<FormValue>, year: int, includeExams: bool, allowMissing: bool, env: Environment,
                agent: nat, order: seq<nat>) returns (r: Result<seq<Course>>)
    requires agent < |UserAgents|
    requires IsCompletionOrder(order, |ids|)
    ensures r == Collect(InOrder(ScrapeTasks(ids, year, includeExams, agent), order), Kept(allowMissing, env))
  {
    var completed := InOrder(ScrapeTasks(ids, year, includeExams, agent), order);
    var courses: seq<Course> := [];
    var k := 0;
    while k < |completed|
      invariant 0 <= k <= |completed|
      invariant Collect(completed[..k], Kept(allowMissing, env)) == Ok(courses)
    {
      var course := ScrapeSingleCourse(completed[k], allowMissing, env);
      ScrapeStep(completed, allowMissing, env, k, courses);
      if course.Err? {
        return Err(course.error);
      }
      courses := courses + if course.value.Some? then [course.value.value] else [];
      k := k + 1;
    }
    assert completed[..|completed|] == completed;
    return Ok(courses);
  }

  /** What the batch loop keeps of one task. */
  lemma KeptAt(task: ScrapeTask, allowMissing: bool, env: Environment)
    ensures var course := ScrapeSingleCourse(task, allowMissing, env);
      Kept(allowMissing, env)(task) ==
        if course.Err? then Err(course.error) else if course.value.Some? then Ok([course.value.value]) else Ok([])
  {
  }

  /** One turn of the batch loop: an exception ends the batch with it, and
      otherwise the course, if any, is appended. */
  lemma ScrapeStep(completed: seq<ScrapeTask>, allowMissing: bool, env: Environment, k: nat, courses: seq<Course>)
    requires k < |completed| && Collect(completed[..k], Kept(allowMissing, env)) == Ok(courses)
    ensures var course := ScrapeSingleCourse(completed[k], allowMissing, env);
      && (course.Err? ==> Collect(completed, Kept(allowMissing, env)) == Err(course.error))
      && (course.Ok? ==> Collect(completed[..k + 1], Kept(allowMissing, env)) ==
                           Ok(courses + if course.value.Some? then [course.value.value] else []))
  {
    CollectStep(completed, Kept(allowMissing, env), k, courses);
    KeptAt(completed[k], allowMissing, env);
  }

  /** The batch never returns more courses than tasks, exactly one per task
      when missing courses are not allowed, and each course is what one of
      those scrape tasks produced. */
  lemma {:induction false} KeptCourses(completed: seq<ScrapeTask>, allowMissing: bool, env: Environment)
    ensures var r := Collect(completed, Kept(allowMissing, env));
      r.Ok? ==>
        && |r.value| <= |completed|
        && (!allowMissing ==> |r.value| == |completed|)
        && forall c :: c in r.value ==>
             exists i :: 0 <= i < |completed| && ScrapeSingleCourse(completed[i], allowMissing, env) == Ok(Some(c))
  {
    CollectOk(completed, Kept(allowMissing, env));
    if completed != [] {
      var front := completed[..|completed| - 1];
      KeptCourses(front, allowMissing, env);
      forall c | Collect(completed, Kept(allowMissing, env)).Ok? && c in Collect(completed, Kept(allowMissing, env)).value
        ensures exists i :: 0 <= i < |completed| && ScrapeSingleCourse(completed[i], allowMissing, env) == Ok(Some(c))
      {
        if c in Collect(front, Kept(allowMissing, env)).value {
          var i :| 0 <= i < |front| && ScrapeSingleCourse(front[i], allowMissing, env) == Ok(Some(c));
          assert completed[i] == front[i];
        } else {
          assert ScrapeSingleCourse(completed[|completed| - 1], allowMissing, env) == Ok(Some(c));
        }
      }
    }
  }

  /** What `scrape` returns, counted against the ids it was given. */
  lemma ScrapeCount(ids: seq<FormValue>, year: int, includeExams: bool, allowMissing: bool, env: Environment,
                    agent: nat, order: seq<nat>)
    requires agent < |UserAgents|
    requires IsCompletionOrder(order, |ids|)
    ensures var r := Collect(InOrder(ScrapeTasks(ids, year, includeExams, agent), order), Kept(allowMissing, env));
      r.Ok? ==> |r.value| <= |ids| && (!allowMissing ==> |r.value| == |ids|)
  {
    KeptCourses(InOrder(ScrapeTasks(ids, year, includeExams, agent), order), allowMissing, env);
  }

  /** The missing-course decision is taken on the raw text, before any
      parsing: whatever the parser would do, the answer is the same. */
  lemma MissingNeverParsed(task: ScrapeTask, allowMissing: bool, env: Environment, convert: string -> Result<Course>)
    requires env.fetch(task.course.task).Ok? && Contains(env.fetch(task.course.task).value, MissingCourseText)
    ensures ScrapeSingleCourse(task, allowMissing, env) == ScrapeSingleCourse(task, allowMissing, env.(convert := convert))
  {
    assert env.fetch(task.course.task) == env.(convert := convert).fetch(task.course.task);
  }

  /** The exams attached are exactly what the exam parser makes of the exam
      response, and a failure there fails the course. */
  lemma AttachedExams(task: ScrapeTask, allowMissing: bool, env: Environment)
    requires env.fetch(task.course.task).Ok? && !Contains(env.fetch(task.course.task).value, MissingCourseText)
    requires env.convert(env.fetch(task.course.task).value).Ok?
    requires task.exams.Some?
    ensures var exams := env.fetch(task.exams.value.task);
      var r := ScrapeSingleCourse(task, allowMissing, env);
      && (exams.Err? ==> r == Err(exams.error))
      && (exams.Ok? ==> (r.Ok? <==> env.convertExams(exams.value).Ok?))
      && (exams.Ok? && env.convertExams(exams.value).Err? ==> r == Err(env.convertExams(exams.value).error))
      && (r.Ok? ==> r.value.value.exams == Some(env.convertExams(exams.value).value))
  {
  }
}
