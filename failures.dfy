/** Optional values, results and the exceptions the licence core raises. */
module Failures {

  /** A reference that may be null, as in `License?`. */
  datatype Option<T> = None | Some(value: T)

  /** The two exception types the core throws: System.ArgumentException,
      which carries the name of the offending parameter, and
      System.InvalidOperationException. */
  datatype Error =
    | ArgumentError(description: string, paramName: string)
    | InvalidOperation(description: string)
  {
    /** Exception.Message as .NET Core reports it: an ArgumentException built
        with a parameter name appends " (Parameter '<name>')" to its text. */
    function Message(): (m: string)
      ensures |description| <= |m| && m[..|description|] == description
      ensures InvalidOperation? <==> m == description
      ensures ArgumentError? ==>
        && |m| == |description| + 13 + |paramName| + 2
        && m[|description|..|description| + 13] == " (Parameter '"
        && m[|description| + 13..|description| + 13 + |paramName|] == paramName
        && m[|description| + 13 + |paramName|..] == "')"
    {
      match this
      case ArgumentError(d, p) =>
        var m := d + " (Parameter '" + p + "')";
        assert m[|d|..|d| + 13] == " (Parameter '";
        assert m[|d| + 13..|d| + 13 + |p|] == p;
        assert m[|d| + 13 + |p|..] == "')";
        m
      case InvalidOperation(d) => d
    }
  }

  /** A call that returns a value or throws. */
  datatype Result<T> = Ok(value: T) | Err(error: Error) {
    function ToOutcome(): (o: Outcome) {
      match this
      case Ok(_) => Pass
      case Err(e) => Fail(e)
    }
  }

  /** A call that returns nothing or throws. */
  datatype Outcome = Pass | Fail(error: Error)
}
