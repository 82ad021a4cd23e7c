/** Small shared vocabulary: optional values, bytes, sequences. */
module Basics {
  datatype Option<+T> = None | Some(value: T)

  /** One octet of a Node `Buffer`. */
  type byte = b: int | 0 <= b < 256

  ghost predicate NoRepeats<T>(s: seq<T>) { forall i, j :: 0 <= i < j < |s| ==> s[i] != s[j] }

  lemma FirstOfConcat<T>(a: seq<T>, b: seq<T>)
    requires a != []
    ensures (a + b)[0] == a[0] && (a + b)[1..] == a[1..] + b
  {}

  lemma BehindFirst<T>(x: T, s: seq<T>)
    ensures ([x] + s)[0] == x && ([x] + s)[1..] == s && [x] + s != []
  {}

  lemma PlusAssociates<T>(a: seq<T>, b: seq<T>, c: seq<T>)
    ensures a + (b + c) == a + b + c
  {}
}
