/** Failure-carrying datatypes shared by every module.

    Python signals failure by raising; the model returns `Raise(exc)` instead,
    naming the exception class the source would raise at that point. */
module Wrappers {

  /** The Python exception classes that the modelled code can raise. */
  datatype Exc =
    | ValueError
    | IndexError
    | KeyError
    | AttributeError
    | TypeError
    | ZeroDivisionError
    | RecursionError
    | Exception

  /** A value that may be absent (Python `None`). */
  datatype Option<+T> = None | Some(value: T) {

    /** The wrapped value, or `default` when absent. */
    function GetOr(default: T): T {
      match this
      case Some(v) => v
      case None => default
    }
  }

  /** The outcome of a call that may raise. */
  datatype Result<+T> = Ok(value: T) | Raise(exc: Exc) {

    predicate IsFailure() {
      Raise?
    }

    function PropagateFailure<U>(): Result<U>
      requires Raise?
    {
      Raise(exc)
    }

    function Extract(): T
      requires Ok?
    {
      value
    }
  }

  /** Runs a sequence of calls in order: the values of all of them, or the
      exception of the first one that raises (a Python loop that appends
      each result and lets exceptions propagate). */
  function Collect<T>(rs: seq<Result<T>>): (r: Result<seq<T>>)
    ensures r.Ok? ==> |r.value| == |rs| && forall j :: 0 <= j < |rs| ==> rs[j] == Ok(r.value[j])
    ensures r.Raise? <==> exists j :: 0 <= j < |rs| && rs[j].Raise?
    ensures r.Raise? ==> exists j :: 0 <= j < |rs| && rs[j] == Raise(r.exc)
  {
    if |rs| == 0 then Ok([])
    else
      match rs[0]
      case Raise(e) => Raise(e)
      case Ok(v) =>
        var rest := Collect(rs[1..]);
        if rest.Raise? then
          assert forall j :: 1 <= j < |rs| ==> rs[j] == rs[1..][j - 1];
          Raise(rest.exc)
        else
          assert forall j :: 1 <= j < |rs| ==> rs[j] == rs[1..][j - 1];
          Ok([v] + rest.value)
  }
}
