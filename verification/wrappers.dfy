/** Values that several modules share. */
module Wrappers {
  /** The usual optional value, where the source uses a flag beside a field, a null pointer or an error return. */
  datatype Option<+T> = None | Some(value: T)

  /** A coordinate axis, as the index into the source's three-element arrays. */
  type Axis = a: nat | a < 3

  /** Two entries exchanged. */
  function Swapped<T>(s: seq<T>, i: nat, j: nat): (r: seq<T>)
    requires i < |s| && j < |s|
    ensures |r| == |s| && multiset(r) == multiset(s)
  {
    s[i := s[j]][j := s[i]]
  }
}
