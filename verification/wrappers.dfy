/** Failure-compatible Option/Result types and the error kinds the Python code raises. */
module Wrappers {

  datatype Option<+T> = None | Some(value: T) {

    function GetOr(default: T): T {
      match this
      case Some(v) => v
      case None => default
    }
  }

  /** Success carries the value; Failure carries the exception that the source would raise. */
  datatype Result<+T> = Success(value: T) | Failure(error: Error) {

    predicate IsFailure() {
      Failure?
    }

    function PropagateFailure<U>(): Result<U>
      requires Failure?
    {
      Failure(error)
    }

    function Extract(): T
      requires Success?
    {
      value
    }
  }

  /** The reason carried by an error, to tell apart raises of the same exception class. */
  datatype Reason =
    | NotImplemented      // "Implement me!" for a non-fake sample in plot.load_coverage
    | UnknownSample       // sample id not among the datasets (store.load_coverage)
    | UnknownDataset      // dataset id not among the datasets (store.load_data)
    | NotFileScheme       // data.load_data on a non-"file" URL
    | InvalidScheme       // data.make_fs on a scheme without a factory
    | ReadGroupCount      // data.load_data on a header without exactly one read group
    | BadInt              // int() on a string that is not a decimal integer
    | NullInterval        // IntervalTree rejects intervals with begin >= end
    | MissingField        // list index past the end of the split line
    | MissingKey          // dict or DataFrame column lookup of an absent key
    | NoAttribute         // attribute read on a value that does not have it
    | Undefined           // a projected coordinate that the projection does not define
    | NanLimits           // `set_xlim` on an x range that is NaN
    | NoPath              // the first path of a `fill_between` drawn over no points

  /** The Python exception classes that the modelled code can raise, with the reason. */
  datatype Error =
    | ExcovisError(reason: Reason)
    | ValueError(reason: Reason)
    | IndexError(reason: Reason)
    | KeyError(reason: Reason)
    | TypeError(reason: Reason)
    | AttributeError(reason: Reason)

  /** `:- Need(c, e)` continues when `c` holds and fails with `e` otherwise. */
  datatype Outcome = Pass | Fail(error: Error) {

    predicate IsFailure() {
      Fail?
    }

    function PropagateFailure<U>(): Result<U>
      requires Fail?
    {
      Failure(error)
    }
  }

  function Need(condition: bool, error: Error): (r: Outcome)
    ensures r.Pass? <==> condition
  {
    if condition then Pass else Fail(error)
  }

  /**
   * Calls `f` on every element in order, as a loop or a list comprehension does; the first
   * call that raises ends the loop with its exception.
   */
  function MapResult<A, T>(xs: seq<A>, f: A -> Result<T>): (r: Result<seq<T>>)
    ensures r.Success? <==> forall i :: 0 <= i < |xs| ==> f(xs[i]).Success?
    ensures r.Success? ==> |r.value| == |xs| && forall i :: 0 <= i < |xs| ==> f(xs[i]) == Success(r.value[i])
    ensures r.Failure? ==> exists i :: 0 <= i < |xs| && f(xs[i]) == Failure(r.error) && forall j :: 0 <= j < i ==> f(xs[j]).Success?
  {
    if xs == [] then Success([])
    else
      var x :- f(xs[0]);
      var rest :- MapResult(xs[1..], f);
      assert forall i :: 1 <= i < |xs| ==> xs[i] == xs[1..][i - 1];
      Success([x] + rest)
  }
}
