/** Optional values, results, and facts about sequences. */
module Wrappers {
  datatype Option<+T> = None | Some(value: T)

  datatype Result<+T, +E> = Success(value: T) | Failure(error: E)

  /** `collect::<Result<Vec<_>, _>>`: every value, or the first error. */
  function Collect<T, E>(items: seq<Result<T, E>>): Result<seq<T>, E> {
    if items == [] then Success([])
    else if items[0].Failure? then Failure(items[0].error)
    else
      var tail := Collect(items[1..]);
      if tail.Failure? then tail else Success([items[0].value] + tail.value)
  }

  /** Collecting fails exactly at the first error, and otherwise keeps every value in place. */
  lemma {:induction false} CollectAt<T, E>(items: seq<Result<T, E>>)
    ensures Collect(items).Success? ==> |Collect(items).value| == |items|
    ensures Collect(items).Success? ==> forall i :: 0 <= i < |items| ==> items[i] == Success(Collect(items).value[i])
    ensures Collect(items).Failure? ==> exists i :: FailsFirst(items, i, Collect(items).error)
  {
    if items != [] && items[0].Success? {
      CollectAt(items[1..]);
      if Collect(items[1..]).Failure? {
        var i: int :| FailsFirst(items[1..], i, Collect(items).error);
        assert forall j :: 0 <= j < i ==> items[1..][j] == items[j + 1];
        assert FailsFirst(items, i + 1, Collect(items).error);
      } else {
        assert forall i :: 1 <= i < |items| ==> items[i] == items[1..][i - 1];
      }
    } else if items != [] {
      assert FailsFirst(items, 0, items[0].error);
    }
  }

  ghost predicate FailsFirst<T, E>(items: seq<Result<T, E>>, i: int, e: E) {
    0 <= i < |items| && items[i] == Failure(e) && forall j :: 0 <= j < i ==> items[j].Success?
  }

  lemma Associate<T>(a: seq<T>, b: seq<T>, c: seq<T>)
    ensures (a + b) + c == a + (b + c)
  {}

  lemma TailOfAppend<T>(a: seq<T>, b: seq<T>)
    requires a != []
    ensures (a + b)[0] == a[0] && (a + b)[1..] == a[1..] + b
  {}

  lemma SliceOfSlice<T>(s: seq<T>, m: nat, n: nat)
    requires m <= n <= |s|
    ensures s[..n][m..] == s[m..n] && s[m..][..n - m] == s[m..n]
  {}

  lemma HeadAndTail<T>(s: seq<T>, n: nat)
    requires n < |s|
    ensures s[..n + 1] == [s[0]] + s[1..][..n] && s[1..][n..] == s[n + 1..]
  {}
}
