/** Small things that several modules share. */
module Options {

  datatype Option<T> = None | Some(value: T)

  function AtLeastZero(n: int): nat {
    if n < 0 then 0 else n
  }

  ghost predicate Distinct<T(!new)>(s: seq<T>) {
    forall i, j :: 0 <= i < j < |s| ==> s[i] != s[j]
  }
}
