/** Success/failure wrapper for operations that can reject their input. */
module Outcomes {
  datatype Result<T, E> = Ok(value: T) | Err(error: E)
}

/** Primary data points (PDPs): the immutable (value, time) pairs fed into archives. */
module Points {

  /** Width of the configuration counters (`unsigned int` in the library). */
  newtype u32 = x: int | 0 <= x < 0x1_0000_0000

  /** One measurement: a value and the instant it was taken, in milliseconds
      since the epoch. A sample is a value, so an archive holding it in its
      pending buffer cannot observe or disturb any other archive's copy. */
  datatype Sample = Sample(value: real, time: int)

  /** The same samples, last one first. Streams are kept oldest-first, while
      the pending buffer and the archive entries are kept newest-first. */
  function Reverse<T>(xs: seq<T>): (r: seq<T>)
    ensures |r| == |xs|
    ensures forall i :: 0 <= i < |xs| ==> r[i] == xs[|xs| - 1 - i]
  {
    if xs == [] then [] else [xs[|xs| - 1]] + Reverse(xs[..|xs| - 1])
  }

  lemma ReverseSnoc<T>(xs: seq<T>, x: T)
    ensures Reverse(xs + [x]) == [x] + Reverse(xs)
  {
  }
}
