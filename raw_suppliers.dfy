/** The suppliers of the table-layout search results: one page of a study
    track's course list, all of its pages, or a course held from the start.
    Fetching a page is not modelled: what each page's table holds is a
    parameter. The courses are converted with the corrected table-layout
    converter, `LegacyCourseOf`: as written, that converter raises TypeError
    on every course it gets far enough to build, so every non-empty page
    fails (`AsWrittenPageNeverSupplies`). */
module RawSuppliers {
  import opened Wrappers
  import opened Text
  import opened LegacyHtmlToCourse

  /** A supplier that hands back the course it was built with. */
  class StaticCourseSupplier {
    const course: LegacyCourse

    constructor (course: LegacyCourse)
      ensures this.course == course
    {
      this.course := course;
    }

    method Supply() returns (c: LegacyCourse)
      ensures c == course
    {
      return course;
    }
  }

  /** `MaslulPageSupplier.supply` with the corrected converter: one course
      per course-title fragment of the page, in document order; any failure
      fails the page. */
  function MaslulPageSupply(fragments: seq<LegacyPage>): (r: Result<seq<LegacyCourse>>)
    ensures r.Ok? <==> forall i :: 0 <= i < |fragments| ==> LegacyCourseOf(fragments[i]).Ok?
    ensures r.Ok? ==> |r.value| == |fragments|
    ensures r.Ok? ==> forall i :: 0 <= i < |fragments| ==> r.value[i] == LegacyCourseOf(fragments[i]).value
  {
    MapAll(fragments, LegacyCourseOf)
  }

  /** `int(re.findall(r'\d+', text)[1])`: the second number in the
      page-information text. */
  function PageCount(text: string): (r: Result<nat>)
    ensures r.Ok? <==> |DigitRuns(text)| >= 2
    ensures r.Ok? ==> |DigitRuns(text)| >= 2 && r.value == DecimalValue(DigitRuns(text)[1])
    ensures r.Err? ==> r.error.IndexError?
  {
    var runs := DigitRuns(text);
    if |runs| < 2 then Err(IndexError("list index out of range")) else Ok(DecimalValue(runs[1]))
  }

  /** `range(n)`. */
  function RequestedPages(n: nat): (pages: seq<nat>)
    ensures |pages| == n
    ensures forall i :: 0 <= i < n ==> pages[i] == i
  {
    seq(n, i => i)
  }

  /** The list of lists flattened, in order. */
  function Flatten<T>(xss: seq<seq<T>>): seq<T> {
    if xss == [] then [] else Flatten(xss[..|xss| - 1]) + xss[|xss| - 1]
  }

  function TotalLength<T>(xss: seq<seq<T>>): nat {
    if xss == [] then 0 else TotalLength(xss[..|xss| - 1]) + |xss[|xss| - 1]|
  }

  /** The supply of one page: the table that page's request brings back,
      converted. */
  function PageSupply(tableOf: nat -> seq<LegacyPage>): nat -> Result<seq<LegacyCourse>> {
    (page: nat) => MaslulPageSupply(tableOf(page))
  }

  /** `MaslulAllPageSupplier.supply`: read the page count from the first
      page's information text, supply pages `0` to `n - 1`, and concatenate
      their courses in page order. The information text is the text of the
      first `td` after the `facultyTitle` division, `None` when either is
      missing. An exception on any page fails the whole supply. */
  function AllPagesSupply(pageInfo: Option<string>, tableOf: nat -> seq<LegacyPage>): (r: Result<seq<LegacyCourse>>)
    ensures pageInfo.None? ==> r.Err? && r.error.AttributeError?
    ensures pageInfo.Some? && PageCount(pageInfo.value).Err? ==> r == Err(PageCount(pageInfo.value).error)
    ensures r.Ok? ==> pageInfo.Some? && PageCount(pageInfo.value).Ok?
  {
    var pageInfoText :- if pageInfo.Some? then Ok(pageInfo.value)
                        else Err(AttributeError("'NoneType' object has no attribute 'find_next'"));
    var n :- PageCount(pageInfoText);
    var results :- MapAll(RequestedPages(n), PageSupply(tableOf));
    Ok(Flatten(results))
  }

  lemma {:induction false} FlattenLength<T>(xss: seq<seq<T>>)
    ensures |Flatten(xss)| == TotalLength(xss)
  {
    if xss != [] {
      FlattenLength(xss[..|xss| - 1]);
    }
  }

  /** A list that comes later starts after every earlier one ends. */
  lemma {:induction false} TotalLengthGrows<T>(xss: seq<seq<T>>, i: nat, j: nat)
    requires i < j <= |xss|
    ensures TotalLength(xss[..i]) + |xss[i]| <= TotalLength(xss[..j])
    decreases j
  {
    assert xss[..j][..j - 1] == xss[..j - 1];
    if i < j - 1 {
      TotalLengthGrows(xss, i, j - 1);
    }
  }

  /** Element `k` of list `i` sits after all the elements of the lists
      before it. */
  lemma {:induction false} FlattenAt<T>(xss: seq<seq<T>>, i: nat, k: nat)
    requires i < |xss| && k < |xss[i]|
    ensures TotalLength(xss[..i]) + k < |Flatten(xss)|
    ensures Flatten(xss)[TotalLength(xss[..i]) + k] == xss[i][k]
    decreases |xss|
  {
    var front := xss[..|xss| - 1];
    FlattenLength(front);
    FlattenLength(xss);
    if i == |xss| - 1 {
      assert xss[..i] == front;
    } else {
      FlattenAt(front, i, k);
      assert front[..i] == xss[..i] && front[i] == xss[i];
    }
  }

  /** No deduplication: a value that two different lists hold appears at
      least twice in the flattened list. */
  lemma NoDeduplication<T>(xss: seq<seq<T>>, i: nat, k: nat, j: nat, l: nat)
    requires i < j < |xss| && k < |xss[i]| && l < |xss[j]| && xss[i][k] == xss[j][l]
    ensures multiset(Flatten(xss))[xss[i][k]] >= 2
  {
    var s := Flatten(xss);
    FlattenAt(xss, i, k);
    FlattenAt(xss, j, l);
    TotalLengthGrows(xss, i, j);
    var p, q := TotalLength(xss[..i]) + k, TotalLength(xss[..j]) + l;
    assert p < q;
    assert s == s[..q] + s[q..];
    assert s[..q][p] == s[p] && s[q..][0] == s[q];
    assert multiset(s) == multiset(s[..q]) + multiset(s[q..]);
  }

  /** The supply fails exactly when the count cannot be read or some page
      fails; otherwise it holds, page by page from page 0, the courses of
      every requested page, as many as their fragments. */
  lemma AllPagesResult(pageInfoText: string, tableOf: nat -> seq<LegacyPage>)
    ensures var r := AllPagesSupply(Some(pageInfoText), tableOf);
      r.Ok? <==> PageCount(pageInfoText).Ok? &&
                 forall p :: 0 <= p < PageCount(pageInfoText).value ==> MaslulPageSupply(tableOf(p)).Ok?
    ensures var r := AllPagesSupply(Some(pageInfoText), tableOf);
      r.Ok? ==>
        var n := PageCount(pageInfoText).value;
        var pages := seq(n, p requires 0 <= p < n => MaslulPageSupply(tableOf(p)).value);
        && r.value == Flatten(pages)
        && |r.value| == TotalLength(pages)
        && forall p :: 0 <= p < n ==> |pages[p]| == |tableOf(p)|
  {
    if PageCount(pageInfoText).Ok? {
      var n := PageCount(pageInfoText).value;
      RequestedPagesSupply(n, tableOf);
      if MapAll(RequestedPages(n), PageSupply(tableOf)).Ok? {
        FlattenLength(seq(n, p requires 0 <= p < n => MaslulPageSupply(tableOf(p)).value));
      }
    }
  }

  /** Supplying pages `0` to `n - 1` succeeds exactly when every page does,
      and then holds each page's courses at that page's place. */
  lemma RequestedPagesSupply(n: nat, tableOf: nat -> seq<LegacyPage>)
    ensures var results := MapAll(RequestedPages(n), PageSupply(tableOf));
      && (results.Ok? <==> forall p :: 0 <= p < n ==> MaslulPageSupply(tableOf(p)).Ok?)
      && (results.Ok? ==> results.value == seq(n, p requires 0 <= p < n => MaslulPageSupply(tableOf(p)).value))
  {
    var requested := RequestedPages(n);
    assert forall p :: 0 <= p < n ==> PageSupply(tableOf)(requested[p]) == MaslulPageSupply(tableOf(p));
  }

  /** The page count is the second number of the text: text without digits,
      a first number, a gap without digits, the count, then anything that
      does not continue the count (more numbers included). */
  lemma PageCountSecondNumber(a: string, first: string, gap: string, count: string, b: string)
    requires forall i :: 0 <= i < |a| ==> !IsDigit(a[i])
    requires first != [] && AllDigits(first) && count != [] && AllDigits(count)
    requires gap != [] && forall i :: 0 <= i < |gap| ==> !IsDigit(gap[i])
    requires b == [] || !IsDigit(b[0])
    ensures PageCount(a + (first + (gap + (count + b)))) == Ok(DecimalValue(count))
  {
    var text := a + (first + (gap + (count + b)));
    RunsOfTwoPieces(a, first, gap, count, b, IsDigit);
    assert DigitRuns(text)[1] == count;
  }

  /** With the converter as written, a page with any course on it fails. */
  lemma AsWrittenPageNeverSupplies(fragments: seq<LegacyPage>)
    requires fragments != []
    ensures MapAll(fragments, LegacyConvertAsWritten).Err?
  {
    AsWrittenNeverConverts(fragments[0]);
  }
}
