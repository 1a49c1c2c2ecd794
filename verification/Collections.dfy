/** Options, lists and the lesser of two numbers. */
module Collections {

  datatype Option<+T> = None | Some(value: T)

  function Min(a: int, b: int): int {
    if a < b then a else b
  }

  ghost predicate NoDup<T>(l: seq<T>) {
    forall i, j :: 0 <= i < j < |l| ==> l[i] != l[j]
  }

  function RemoveAt<T>(l: seq<T>, i: nat): seq<T>
    requires i < |l|
  {
    l[..i] + l[i + 1..]
  }

  ghost predicate AllIn<T, V>(l: seq<T>, m: map<T, V>) {
    forall x :: x in l ==> x in m
  }
}
