/** Failure-carrying datatypes used to pass HTTP outcomes into the model
    and to return normalised failures out of it. */
module Wrappers {

  /** A value that may be absent: `undefined` or `null` in the source. */
  datatype Option<+T> = None | Some(value: T) {

    /** The carried value, or `default` when there is none. */
    function GetOr(default: T): (r: T)
      ensures Some? ==> r == value
      ensures None? ==> r == default
    {
      match this
      case Some(v) => v
      case None => default
    }
  }

  /** The outcome of a call that either resolves with a value or rejects
      with an error (a settled promise). */
  datatype Result<+T, +E> = Success(value: T) | Failure(error: E)

  /** All values of `rs` in order when every entry succeeded, otherwise the
      error of the first entry that failed. This is the reference meaning of
      "await each call in turn and stop at the first rejection". */
  function Collect<T, E>(rs: seq<Result<T, E>>): Result<seq<T>, E>
  {
    if |rs| == 0 then Success([])
    else match rs[0]
      case Failure(e) => Failure(e)
      case Success(v) =>
        match Collect(rs[1..])
        case Failure(e) => Failure(e)
        case Success(vs) => Success([v] + vs)
  }

  /** `Collect` succeeds exactly when no entry failed; its values are the
      entries' values in order; when it fails, its error is the error of the
      first failing entry, every entry before which succeeded. */
  lemma {:induction false} CollectFirstFailure<T, E>(rs: seq<Result<T, E>>)
    ensures Collect(rs).Success? <==> (forall i :: 0 <= i < |rs| ==> rs[i].Success?)
    ensures Collect(rs).Success? ==>
              |Collect(rs).value| == |rs| &&
              forall i :: 0 <= i < |rs| ==> Collect(rs).value[i] == rs[i].value
    ensures Collect(rs).Failure? ==>
              exists i :: 0 <= i < |rs| && rs[i] == Failure(Collect(rs).error) &&
                          forall j :: 0 <= j < i ==> rs[j].Success?
  {
    if |rs| > 0 {
      CollectFirstFailure(rs[1..]);
      match rs[0]
      case Failure(e) =>
        assert rs[0] == Failure(Collect(rs).error);
      case Success(v) =>
        if Collect(rs[1..]).Failure? {
          var i :| 0 <= i < |rs[1..]| && rs[1..][i] == Failure(Collect(rs[1..]).error) &&
                   forall j :: 0 <= j < i ==> rs[1..][j].Success?;
          assert rs[i + 1] == Failure(Collect(rs).error);
          forall j | 0 <= j < i + 1
            ensures rs[j].Success?
          {
            if j > 0 { assert rs[j] == rs[1..][j - 1]; }
          }
        } else {
          forall i | 0 <= i < |rs|
            ensures Collect(rs).value[i] == rs[i].value
          {
            if i > 0 { assert rs[i] == rs[1..][i - 1]; }
          }
        }
    }
  }
}
