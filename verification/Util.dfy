/** Definitions that several modules share. */
module Util {

  datatype Option<+T> = None | Some(value: T)

  predicate Distinct<T(==)>(s: seq<T>) {
    forall i, j :: 0 <= i < j < |s| ==> s[i] != s[j]
  }

  /** The elements of `q` that are in `s`, in order. */
  function Chosen<T(==, !new)>(q: seq<T>, s: set<T>): (r: seq<T>)
    ensures forall x :: x in r <==> x in q && x in s
  {
    if q == [] then [] else (if q[0] in s then [q[0]] else []) + Chosen(q[1..], s)
  }
}
