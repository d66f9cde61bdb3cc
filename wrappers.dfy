/** Option and Result types shared by the whole model, and the Python exception
    classes that the modelled code raises or lets escape. */
module Wrappers {

  datatype Option<+T> = None | Some(value: T) {
    /** Python's `x or default` on an optional value. */
    function GetOr(default: T): T {
      if Some? then value else default
    }
  }

  /** The exceptions that can leave a modelled operation. */
  datatype Exception =
    | AttributeError(detail: string)  // an attribute looked up on None: a container the page lacks
    | IndexError(detail: string)      // a list index out of range
    | ValueError(detail: string)      // a failed unpacking, or an explicit `raise ValueError`
    | AssertionError(detail: string)
    | TypeError(detail: string)
    | ClientError(detail: string)     // aiohttp.ClientError and its subclasses
    | TimeoutError                    // asyncio.TimeoutError
    | OtherError(detail: string)      // any other exception class

  /** A value, or the exception that was raised instead of producing it. */
  datatype Result<+T> = Ok(value: T) | Err(error: Exception) {
    predicate IsFailure() {
      Err?
    }

    function PropagateFailure<U>(): Result<U>
      requires Err?
    {
      Err(error)
    }

    function Extract(): T
      requires Ok?
    {
      value
    }
  }

  /** `[f(x) for x in xs]` where `f` may raise: the elements are converted in
      order and the first exception aborts the whole list. */
  function MapAll<A, B>(xs: seq<A>, f: A -> Result<B>): (r: Result<seq<B>>)
    ensures r.Ok? <==> forall i :: 0 <= i < |xs| ==> f(xs[i]).Ok?
    ensures r.Ok? ==> |r.value| == |xs| && forall i :: 0 <= i < |xs| ==> r.value[i] == f(xs[i]).value
    ensures r.Err? ==> exists i :: 0 <= i < |xs| && f(xs[i]) == Err(r.error) &&
                                   forall j :: 0 <= j < i ==> f(xs[j]).Ok?
  {
    if xs == [] then Ok([])
    else
      var head :- f(xs[0]);
      var tail :- MapAll(xs[1..], f);
      assert forall i :: 1 <= i < |xs| ==> xs[i] == xs[1..][i - 1];
      Ok([head] + tail)
  }

  /** The error of the first failing element is the error of the list. */
  lemma MapAllFirstError<A, B>(xs: seq<A>, f: A -> Result<B>, i: nat)
    requires i < |xs| && f(xs[i]).Err?
    requires forall k :: 0 <= k < i ==> f(xs[k]).Ok?
    ensures MapAll(xs, f) == Err(f(xs[i]).error)
  {
    var r := MapAll(xs, f);
    var j :| 0 <= j < |xs| && f(xs[j]) == Err(r.error) && forall k :: 0 <= k < j ==> f(xs[k]).Ok?;
    assert j == i;
  }

  /** Converting one more element at the end appends its value. */
  lemma {:induction false} MapAllSnoc<A, B>(xs: seq<A>, x: A, f: A -> Result<B>)
    requires MapAll(xs, f).Ok? && f(x).Ok?
    ensures MapAll(xs + [x], f) == Ok(MapAll(xs, f).value + [f(x).value])
  {
    if xs == [] {
      var none: seq<A> := [];
      assert MapAll(none, f) == Ok([]);
      assert xs + [x] == [x] && [x][1..] == none;
      assert MapAll([x], f) == Ok([f(x).value] + []);
      assert MapAll(xs, f).value + [f(x).value] == [f(x).value] + [];
    } else {
      var h, t := f(xs[0]).value, MapAll(xs[1..], f).value;
      MapAllSnoc(xs[1..], x, f);
      assert (xs + [x])[1..] == xs[1..] + [x];
      assert (xs + [x])[0] == xs[0];
      assert MapAll(xs + [x], f) == Ok([h] + (t + [f(x).value]));
      assert [h] + (t + [f(x).value]) == [h] + t + [f(x).value];
    }
  }

  /** A prefix that converts grows by the value of the next element. */
  lemma MapAllGrows<A, B>(xs: seq<A>, f: A -> Result<B>, k: nat)
    requires k < |xs| && MapAll(xs[..k], f).Ok? && f(xs[k]).Ok?
    ensures MapAll(xs[..k + 1], f) == Ok(MapAll(xs[..k], f).value + [f(xs[k]).value])
  {
    assert xs[..k + 1] == xs[..k] + [xs[k]];
    MapAllSnoc(xs[..k], xs[k], f);
  }

  /** An element that fails after a prefix that converts fails the list. */
  lemma MapAllStops<A, B>(xs: seq<A>, f: A -> Result<B>, k: nat)
    requires k < |xs| && MapAll(xs[..k], f).Ok? && f(xs[k]).Err?
    ensures MapAll(xs, f) == Err(f(xs[k]).error)
  {
    assert forall i :: 0 <= i < k ==> xs[..k][i] == xs[i];
    MapAllFirstError(xs, f, k);
  }

  /** A loop that extends a list with what each element yields, in order;
      the first exception aborts it. */
  function Collect<A, B>(xs: seq<A>, f: A -> Result<seq<B>>): Result<seq<B>> {
    if xs == [] then Ok([])
    else
      var front :- Collect(xs[..|xs| - 1], f);
      var last :- f(xs[|xs| - 1]);
      Ok(front + last)
  }

  /** One more iteration of the loop. */
  lemma CollectNext<A, B>(xs: seq<A>, f: A -> Result<seq<B>>, k: nat)
    requires k < |xs|
    ensures Collect(xs[..k + 1], f) ==
      if Collect(xs[..k], f).Err? then Collect(xs[..k], f)
      else if f(xs[k]).Err? then Err(f(xs[k]).error)
      else Ok(Collect(xs[..k], f).value + f(xs[k]).value)
  {
    assert xs[..k + 1][..k] == xs[..k];
  }

  /** One more iteration of a loop that has not raised: the element's
      exception ends it, or what the element yields is appended. */
  lemma CollectStep<A, B>(xs: seq<A>, f: A -> Result<seq<B>>, k: nat, acc: seq<B>)
    requires k < |xs| && Collect(xs[..k], f) == Ok(acc)
    ensures f(xs[k]).Err? ==> Collect(xs, f) == Err(f(xs[k]).error)
    ensures f(xs[k]).Ok? ==> Collect(xs[..k + 1], f) == Ok(acc + f(xs[k]).value)
  {
    CollectNext(xs, f, k);
    if f(xs[k]).Err? {
      CollectStops(xs, f, k + 1);
    }
  }

  /** Once the loop has raised, the rest of the elements change nothing. */
  lemma {:induction false} CollectStops<A, B>(xs: seq<A>, f: A -> Result<seq<B>>, k: nat)
    requires k <= |xs| && Collect(xs[..k], f).Err?
    ensures Collect(xs, f) == Collect(xs[..k], f)
    decreases |xs| - k
  {
    if k < |xs| {
      CollectNext(xs, f, k);
      CollectStops(xs, f, k + 1);
    } else {
      assert xs[..k] == xs;
    }
  }

  /** The loop finishes exactly when no element raises; it then yields
      what the elements yield, one after the other. */
  lemma {:induction false} CollectOk<A, B>(xs: seq<A>, f: A -> Result<seq<B>>)
    ensures Collect(xs, f).Ok? <==> forall i :: 0 <= i < |xs| ==> f(xs[i]).Ok?
    ensures Collect(xs, f).Ok? && xs != [] ==>
      Collect(xs, f).value == Collect(xs[..|xs| - 1], f).value + f(xs[|xs| - 1]).value
  {
    if xs != [] {
      var front := xs[..|xs| - 1];
      CollectOk(front, f);
      assert forall i :: 0 <= i < |front| ==> front[i] == xs[i];
    }
  }
}
