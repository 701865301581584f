/** Outcome datatypes standing for the exceptions the note store raises. */
module Results {

  /** A value, or nothing (a failed parse of one text field). */
  datatype Option<+T> = None | Some(value: T)

  /** A value, or the error that would have been raised instead. */
  datatype Result<+T, +E> = Ok(value: T) | Err(error: E)

  /** Success of an operation that returns nothing, or the error it raised. */
  datatype Outcome<+E> = Pass | Fail(error: E)

  /** `[f(x) for x in s]` where `f` may raise: every result when none raises, otherwise
      the error of the first element that raises. */
  function MapOrFail<A, B, E>(s: seq<A>, f: A -> Result<B, E>): (r: Result<seq<B>, E>)
    ensures r.Ok? <==> forall i :: 0 <= i < |s| ==> f(s[i]).Ok?
    ensures r.Ok? ==> |r.value| == |s| && forall i :: 0 <= i < |s| ==> f(s[i]) == Ok(r.value[i])
    ensures r.Err? ==> exists i :: 0 <= i < |s| && f(s[i]) == Err(r.error)
                                   && forall j :: 0 <= j < i ==> f(s[j]).Ok?
  {
    if s == [] then Ok([])
    else match f(s[0])
    case Err(e) => Err(e)
    case Ok(y) =>
      match MapOrFail(s[1..], f)
      case Err(e) =>
        ghost var i :| 0 <= i < |s| - 1 && f(s[1..][i]) == Err(e)
                        && forall j :: 0 <= j < i ==> f(s[1..][j]).Ok?;
        assert f(s[i + 1]) == Err(e);
        Err(e)
      case Ok(rest) => Ok([y] + rest)
  }
}
