/** Optional values (the source's `null`) and the three outcomes of a call
    that may also throw. */
module Wrappers {

  datatype Option<+T> = None | Some(value: T) {
    function GetOr(default: T): T {
      match this
      case Some(v) => v
      case None => default
    }
  }

  /** What a .NET call returning a reference can do: return null, return an
      object, or throw an exception that its caller does not catch. */
  datatype Outcome<+T> = Null | Value(value: T) | Throws

  /** The position of the first present value in `s`, or -1 when there is
      none. */
  function FirstSome<T>(s: seq<Option<T>>): (k: int)
    ensures -1 <= k < |s|
    ensures k >= 0 ==> s[k].Some?
    ensures forall j :: 0 <= j < |s| && (k == -1 || j < k) ==> s[j].None?
  {
    if s == [] then -1
    else if s[0].Some? then 0
    else
      var k := FirstSome(s[1..]);
      assert forall j :: 0 < j < |s| ==> s[j] == s[1..][j - 1];
      if k == -1 then -1 else k + 1
  }
}
