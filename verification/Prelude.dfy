/** The few general datatypes, and one function on text, that the other modules share. */
module Prelude {

  /** A value that the original program represents as `None` or the value itself. */
  datatype Option<+T> = None | Some(value: T)

  /** What a call that may raise `Refused` gives back. */
  datatype Result<+T> = Ok(value: T) | Refused

  /** Where the first slash is, or the length. */
  function FirstSlash(s: string): (n: nat)
    ensures n <= |s| && (n < |s| ==> s[n] == '/') && forall i :: 0 <= i < n ==> s[i] != '/'
  {
    if s == "" || s[0] == '/' then 0 else 1 + FirstSlash(s[1..])
  }
}
