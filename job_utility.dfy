/**
 * The fill job: writes one value into every element of an array, in place,
 * front to back.
 */
module JobUtility {

  /** A sequence of n copies of value: what a filled array holds. */
  function Filled<T>(n: nat, value: T): (s: seq<T>)
    ensures |s| == n && forall i :: 0 <= i < n ==> s[i] == value
  {
    seq(n, _ => value)
  }

  class FillJob<T> {
    const target: array<T>
    const value: T

    constructor (target: array<T>, value: T)
      ensures this.target == target && this.value == value
    {
      this.target := target;
      this.value := value;
    }

    /** Every index in [0, Length) ends up holding value; the length is unchanged. */
    method Execute()
      modifies target
      ensures target[..] == Filled(target.Length, value)
    {
      var length := target.Length;
      for i := 0 to length
        invariant target[..i] == Filled(i, value)
        invariant target[i..] == old(target[i..])
      {
        target[i] := value;
      }
    }

    /**
     * Running the job a second time leaves the array as one run left it: the
     * result does not depend on the previous contents.
     */
    method ExecuteTwice()
      modifies target
      ensures target[..] == Filled(target.Length, value)
    {
      Execute();
      ghost var once := target[..];
      Execute();
      assert target[..] == once;
    }
  }

  /** Filling a one-element int array with 1 leaves 1 at index 0. */
  method FillSingleElement() returns (first: int)
    ensures first == 1
  {
    var a := new int[1];
    var job := new FillJob(a, 1);
    job.Execute();
    first := a[0];
  }
}
