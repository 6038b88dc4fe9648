module Wrappers {
  datatype Option<+T> = None | Some(value: T)

  /** A sequence with its `k`-th element left out. */
  function Without<T>(r: seq<T>, k: nat): (s: seq<T>)
    requires k < |r|
    ensures |s| == |r| - 1
  {
    r[..k] + r[k + 1..]
  }

  lemma WithoutElements<T>(r: seq<T>, k: nat)
    requires k < |r|
    ensures forall i :: 0 <= i < |r| - 1 ==> Without(r, k)[i] == r[if i < k then i else i + 1]
  {
  }
}
