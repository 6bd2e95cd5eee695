/**
 * The exceptions the modelled code raises or lets through, and the
 * success-or-exception result every fallible operation returns.
 */
module Errors {

  /** Python exceptions, by class.  Subclasses of ValueError (binascii.Error,
      UnicodeDecodeError) are folded into ValueError because the resolver
      only ever asks "is it a ValueError?". */
  datatype Exc =
    | ValueError(what: string)
    | TypeError(what: string)
    | AttributeError(what: string)
    | KeyError(key: string)
    | IndexError
    | AssertionError(what: string)
    /** `OSError(errno, strerror, filename)`, with `errno` absent when not given */
    | OSError(errno: Option<int>, strerror: string, filename: string)
    | StopIteration
    | RuntimeError(what: string)
    | StructError
    | CalledProcessError(code: int)
    /** any exception raised inside a foreign library (tarfile, zipfile, subprocess) */
    | LibraryError(what: string)
    /** the bare `Exception` raised when the layer bound runs out */
    | Exception(what: string)

  datatype Option<+T> = None | Some(value: T)

  datatype Result<+T> = Ok(value: T) | Err(exc: Exc)

  /** A list built by a call that may raise on each element: the values when
      every call succeeds, otherwise the first call's exception. */
  function AllOk<T>(rs: seq<Result<T>>): (r: Result<seq<T>>)
    ensures r.Ok? <==> forall i :: 0 <= i < |rs| ==> rs[i].Ok?
    ensures r.Ok? ==> |r.value| == |rs| && forall i :: 0 <= i < |rs| ==> rs[i] == Ok(r.value[i])
    ensures r.Err? ==> exists i :: 0 <= i < |rs| && rs[i] == Err(r.exc) && forall j :: 0 <= j < i ==> rs[j].Ok?
  {
    if rs == [] then Ok([])
    else
      var rest := AllOk(rs[1..]);
      if rs[0].Err? then Err(rs[0].exc)
      else if rest.Err? then
        var k :| 0 <= k < |rs[1..]| && rs[1..][k] == Err(rest.exc) && forall j :: 0 <= j < k ==> rs[1..][j].Ok?;
        assert rs[k + 1] == Err(rest.exc);
        Err(rest.exc)
      else
        var vs := [rs[0].value] + rest.value;
        assert forall i :: 1 <= i < |rs| ==> rs[i] == rs[1..][i - 1] && vs[i] == rest.value[i - 1];
        Ok(vs)
  }

  /** The resolver treats exactly the ValueError family as "this candidate declines". */
  predicate IsDecline(e: Exc) {
    e.ValueError?
  }
}
