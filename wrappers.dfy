/** Failure-compatible wrappers shared by the whole model, and the exceptions the source raises. */
module Wrappers {

  datatype Option<+T> = None | Some(value: T)

  /** The Python exceptions (and the two non-returning outcomes) that the modelled code can end in. */
  datatype Error =
    | TypeError            // GeoData built from arrays of unequal length
    | ValueError           // numpy reduction of an empty array, empty apply_along_axis, zero range step, ...
    | ZeroDivisionError    // Python float division by zero
    | NotImplementedError  // coordinate scaled by a non-numeric operand
    | IndexError           // indexing an empty string
    | UnboundLocalError    // reading a local variable that was never assigned
    | NonFinite            // numpy division by zero: an IEEE infinity the real-number model cannot carry
    | Diverges             // the source's loop reaches a state it has already been in, so it never ends
    | OutOfFuel            // the model's iteration bound ran out before the loop ended

  datatype Result<+R> = Success(value: R) | Failure(error: Error) {
    predicate IsFailure() { Failure? }

    function PropagateFailure<U>(): Result<U>
      requires Failure?
    {
      Failure(error)
    }

    function Extract(): R
      requires Success?
    {
      value
    }
  }

  /** The values produced so far followed by the outcome of the rest of a loop: a failure of
      the rest is the failure of the whole. */
  function Prefixed<T>(acc: seq<T>, r: Result<seq<T>>): Result<seq<T>> {
    if r.Success? then Success(acc + r.value) else r
  }

  lemma PrefixedSnoc<T>(acc: seq<T>, d: T, r: Result<seq<T>>)
    ensures Prefixed(acc, Prefixed([d], r)) == Prefixed(acc + [d], r)
  {
    if r.Success? {
      assert acc + ([d] + r.value) == (acc + [d]) + r.value;
    }
  }

  lemma PrefixedConcat<T>(acc: seq<T>, d: seq<T>, r: Result<seq<T>>)
    ensures Prefixed(acc, Prefixed(d, r)) == Prefixed(acc + d, r)
  {
    if r.Success? {
      assert acc + (d + r.value) == (acc + d) + r.value;
    }
  }

  /** What an accumulator becomes when the outcome after it is a first part (that may fail)
      followed by the rest. */
  lemma PrefixedStep<T>(acc: seq<T>, first: Result<seq<T>>, outcome: Result<seq<T>>, rest: Result<seq<T>>)
    requires first.Failure? ==> outcome == Failure(first.error)
    requires first.Success? ==> outcome == Prefixed(first.value, rest)
    ensures first.Failure? ==> Prefixed(acc, outcome) == Failure(first.error)
    ensures first.Success? ==> Prefixed(acc, outcome) == Prefixed(acc + first.value, rest)
  {
    if first.Success? {
      PrefixedConcat(acc, first.value, rest);
    }
  }

  lemma PrefixedTo<T>(acc: seq<T>)
    ensures Prefixed(acc, Success([])) == Success(acc)
  {
    assert acc + [] == acc;
  }

  lemma PrefixedNothing<T>(r: Result<seq<T>>)
    ensures Prefixed([], r) == r
  {
    if r.Success? {
      assert [] + r.value == r.value;
    }
  }
}
