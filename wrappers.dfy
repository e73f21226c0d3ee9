/** Failure-compatible wrappers shared by the whole model, and the kinds of
    exception the library throws (or lets through from the platform). */
module Wrappers {

  datatype Option<+T> = None | Some(value: T) {
    predicate IsFailure() { None? }

    function PropagateFailure<U>(): Option<U>
      requires None?
    {
      None
    }

    function Extract(): T
      requires Some?
    {
      value
    }

    function GetOr(default: T): T {
      match this
      case Some(v) => v
      case None => default
    }
  }

  /** The exceptions that reach the caller of the library. */
  datatype Failure =
    | IllegalState(message: string)      // `check(...)` failing
    | IndexOutOfBounds                   // `split("=")[1]` on a piece without '='
    | IllegalArgument(message: string)   // scheme rejection, JSON coercion
    | MalformedUrl                       // java.net.URL refuses the text
    | UnresolvableLocation               // URI.resolve cannot use the Location header
    | UnsupportedCharset(name: string)   // Charset.forName refuses the name
    | NullPointer                        // a `!!` on null
    | UriSyntax                          // java.net.URI refuses the text
    | TooManyRedirects                   // only the model's hop bound produces this
    | EndlessRead                        // only the model's read bound produces this
    | NoSuchElement                      // `last()` of an empty list

  datatype Result<+T> = Ok(value: T) | Err(error: Failure) {
    predicate IsFailure() { Err? }

    function PropagateFailure<U>(): Result<U>
      requires Err?
    {
      Err(error)
    }

    function Extract(): T
      requires Ok?
    {
      value
    }
  }

  /** `map { f(it) }` over a list where `f` may throw: the results in order,
      or the exception of the first element that fails. */
  function Traverse<A, B>(xs: seq<A>, f: A -> Result<B>): (r: Result<seq<B>>)
    ensures r.Ok? <==> forall i :: 0 <= i < |xs| ==> f(xs[i]).Ok?
    ensures r.Ok? ==> |r.value| == |xs| && forall i :: 0 <= i < |xs| ==> f(xs[i]) == Ok(r.value[i])
    ensures r.Err? ==> exists i :: 0 <= i < |xs| && f(xs[i]) == Err(r.error)
    decreases |xs|
  {
    if |xs| == 0 then Ok([])
    else
      match f(xs[0])
      case Err(e) => Err(e)
      case Ok(first) =>
        match Traverse(xs[1..], f)
        case Err(e) =>
          var j :| 0 <= j < |xs| - 1 && f(xs[1..][j]) == Err(e);
          assert f(xs[j + 1]) == Err(e);
          Err(e)
        case Ok(rest) => Ok([first] + rest)
  }

  /** Traversal succeeds with exactly the values every element maps to. */
  lemma TraverseAll<A, B>(xs: seq<A>, f: A -> Result<B>, ys: seq<B>)
    requires |xs| == |ys| && forall i :: 0 <= i < |xs| ==> f(xs[i]) == Ok(ys[i])
    ensures Traverse(xs, f) == Ok(ys)
  {
    var r := Traverse(xs, f);
    assert r.Ok?;
    assert r.value == ys;
  }

  /** `firstOrNull()` over the present values of `f`: the value of the first
      element for which `f` gives one. */
  function FirstSome<A, B>(xs: seq<A>, f: A -> Option<B>): Option<B>
    decreases |xs|
  {
    if |xs| == 0 then None
    else if f(xs[0]).Some? then f(xs[0])
    else FirstSome(xs[1..], f)
  }

  /** There is no first value exactly when `f` gives none anywhere. */
  lemma {:induction false} FirstSomeNone<A, B>(xs: seq<A>, f: A -> Option<B>)
    ensures FirstSome(xs, f).None? <==> forall i :: 0 <= i < |xs| ==> f(xs[i]).None?
    decreases |xs|
  {
    if |xs| > 0 {
      FirstSomeNone(xs[1..], f);
      assert forall i :: 0 <= i < |xs| - 1 ==> xs[1..][i] == xs[i + 1];
    }
  }

  /** The first value is the one of the first element that has one; later
      elements are not looked at. */
  lemma {:induction false} FirstSomeAt<A, B>(xs: seq<A>, f: A -> Option<B>, i: nat)
    requires i < |xs| && f(xs[i]).Some?
    requires forall j :: 0 <= j < i ==> f(xs[j]).None?
    ensures FirstSome(xs, f) == f(xs[i])
    decreases i
  {
    if i > 0 {
      assert xs[1..][i - 1] == xs[i];
      assert forall j :: 0 <= j < i - 1 ==> xs[1..][j] == xs[j + 1];
      FirstSomeAt(xs[1..], f, i - 1);
    }
  }
}
