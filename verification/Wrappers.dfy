/** Small types and functions several modules share. */
module Wrappers {

  datatype Option<+T> = None | Some(value: T)

  /** The position of the first c, or |s|. */
  function IndexOf(s: string, c: char): (k: nat)
    ensures k <= |s| && (k < |s| ==> s[k] == c) && (forall i :: 0 <= i < k ==> s[i] != c)
  {
    if s == [] || s[0] == c then 0 else 1 + IndexOf(s[1..], c)
  }
}
