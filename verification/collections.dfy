/** Values that may be absent, and sequences read as sets. */
module Collections {

  datatype Option<T> = None | Some(value: T)

  function Elements<T>(s: seq<T>): set<T> { set x | x in s }

  ghost predicate Distinct<T>(s: seq<T>) {
    forall i, j :: 0 <= i < j < |s| ==> s[i] != s[j]
  }
}
