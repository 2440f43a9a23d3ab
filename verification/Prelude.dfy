/** Result and option types shared by every module of the model. */
module Prelude {

  datatype Option<+T> = None | Some(value: T)

  datatype Result<+T, +E> = Ok(value: T) | Err(error: E)

  lemma Associative<T>(a: seq<T>, b: seq<T>, c: seq<T>)
    ensures a + b + c == a + (b + c)
  {
  }

  lemma Regroup<T>(a: seq<T>, b: seq<T>, c: seq<T>, d: seq<T>)
    ensures a + b + c + d == a + (b + c + d)
  {
  }

  /** `sub` is found in `s` at the increasing positions `at`. */
  ghost predicate Subsequence<T>(sub: seq<T>, s: seq<T>, at: seq<int>) {
    && |at| == |sub|
    && (forall i :: 0 <= i < |at| ==> 0 <= at[i] < |s| && s[at[i]] == sub[i])
    && (forall i, j :: 0 <= i < j < |at| ==> at[i] < at[j])
  }
}
