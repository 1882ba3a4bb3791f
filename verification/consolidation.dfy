/** Consolidation functions: how a full window of pending samples, stored
    newest-first, becomes one archive entry. */
module Consolidation {
  import opened Outcomes
  import opened Points

  /** The closed set of consolidation functions. */
  datatype Policy = Avg | Min | Max

  /** A configuration the library cannot honour. */
  datatype ConfigError = UnknownPolicy(cf: int)

  /** Enumerator values of the library's consolidation-function enum. */
  function PolicyCode(p: Policy): int
  {
    match p
    case Avg => 0
    case Min => 1
    case Max => 2
  }

  /** Decodes an integer consolidation-function code; anything outside the
      enumeration is rejected instead of reaching an assertion later. */
  function PolicyFromCode(cf: int): (r: Result<Policy, ConfigError>)
    ensures r.Ok? <==> 0 <= cf <= 2
    ensures r.Ok? ==> PolicyCode(r.value) == cf
    ensures r.Err? ==> r.error == UnknownPolicy(cf)
  {
    if cf == 0 then Ok(Avg)
    else if cf == 1 then Ok(Min)
    else if cf == 2 then Ok(Max)
    else Err(UnknownPolicy(cf))
  }

  lemma PolicyCodeRoundTrip(p: Policy)
    ensures PolicyFromCode(PolicyCode(p)) == Ok(p)
  {
  }

  // ---------------------------------------------------------------- average

  /** Running total in the order `std::accumulate` adds the buffer up. */
  function Sum(w: seq<Sample>): real
  {
    if w == [] then 0.0 else Sum(w[..|w| - 1]) + w[|w| - 1].value
  }

  /** Arithmetic mean of the window's values. */
  function Mean(w: seq<Sample>): (r: real)
    requires |w| > 0
    ensures r * (|w| as real) == Sum(w)
  {
    Sum(w) / (|w| as real)
  }

  // ----------------------------------------------------- minimum / maximum

  /** `w[i]` holds the smallest value among `w[..n]`, and no earlier sample
      holds that value: ties go to the front, i.e. the newest sample. */
  predicate IsFirstMin(w: seq<Sample>, n: int, i: int)
  {
    && 0 <= i < n <= |w|
    && (forall j :: 0 <= j < n ==> w[i].value <= w[j].value)
    && (forall j :: 0 <= j < i ==> w[i].value < w[j].value)
  }

  /** `w[i]` holds the largest value among `w[..n]`, first such from the front. */
  predicate IsFirstMax(w: seq<Sample>, n: int, i: int)
  {
    && 0 <= i < n <= |w|
    && (forall j :: 0 <= j < n ==> w[j].value <= w[i].value)
    && (forall j :: 0 <= j < i ==> w[j].value < w[i].value)
  }

  /** The scan of `std::min_element`: `best` is the smallest seen so far and
      is replaced only by a strictly smaller value. */
  function ScanMin(w: seq<Sample>, best: nat, i: nat): (r: nat)
    requires best < i <= |w|
    requires IsFirstMin(w, i, best)
    ensures IsFirstMin(w, |w|, r)
    decreases |w| - i
  {
    if i == |w| then best
    else if w[i].value < w[best].value then ScanMin(w, i, i + 1)
    else ScanMin(w, best, i + 1)
  }

  /** The scan of `std::max_element`: `best` is replaced only when it is
      strictly smaller than the current sample. */
  function ScanMax(w: seq<Sample>, best: nat, i: nat): (r: nat)
    requires best < i <= |w|
    requires IsFirstMax(w, i, best)
    ensures IsFirstMax(w, |w|, r)
    decreases |w| - i
  {
    if i == |w| then best
    else if w[best].value < w[i].value then ScanMax(w, i, i + 1)
    else ScanMax(w, best, i + 1)
  }

  function MinElement(w: seq<Sample>): (r: nat)
    requires |w| > 0
    ensures IsFirstMin(w, |w|, r)
  {
    ScanMin(w, 0, 1)
  }

  function MaxElement(w: seq<Sample>): (r: nat)
    requires |w| > 0
    ensures IsFirstMax(w, |w|, r)
  {
    ScanMax(w, 0, 1)
  }

  /** At most one position is the first minimum, so the tie-break rule
      determines the chosen sample completely. */
  lemma FirstMinUnique(w: seq<Sample>, n: int, i: int, j: int)
    requires IsFirstMin(w, n, i) && IsFirstMin(w, n, j)
    ensures i == j
  {
    assert w[i].value <= w[j].value && w[j].value <= w[i].value;
  }

  lemma FirstMaxUnique(w: seq<Sample>, n: int, i: int, j: int)
    requires IsFirstMax(w, n, i) && IsFirstMax(w, n, j)
    ensures i == j
  {
    assert w[i].value <= w[j].value && w[j].value <= w[i].value;
  }

  // ------------------------------------------------------------ consolidate

  /** Folds a window of pending samples, newest first, into one entry. The
      average is stamped with the newest sample's time; the minimum and
      maximum are the chosen samples themselves, with their own time. */
  function Consolidate(p: Policy, w: seq<Sample>): (r: Sample)
    requires |w| > 0
    ensures p == Avg ==> r.value * (|w| as real) == Sum(w) && r.time == w[0].time
    ensures p == Min ==> exists i :: IsFirstMin(w, |w|, i) && r == w[i]
    ensures p == Max ==> exists i :: IsFirstMax(w, |w|, i) && r == w[i]
  {
    match p
    case Avg => Sample(Mean(w), w[0].time)
    case Min => w[MinElement(w)]
    case Max => w[MaxElement(w)]
  }

  /** A window of one sample consolidates to that very sample under every
      policy, which is why a one-step archive may skip consolidation. */
  lemma ConsolidateSingleton(p: Policy, s: Sample)
    ensures Consolidate(p, [s]) == s
  {
    assert Sum([s]) == Sum([]) + s.value;
  }

  lemma {:induction false} SumFront(x: Sample, t: seq<Sample>)
    ensures Sum([x] + t) == x.value + Sum(t)
    decreases |t|
  {
    if t != [] {
      assert ([x] + t)[..|t|] == [x] + t[..|t| - 1];
      SumFront(x, t[..|t| - 1]);
    }
  }

  /** The total does not depend on the order the buffer is walked in. */
  lemma {:induction false} SumReverse(w: seq<Sample>)
    ensures Sum(Reverse(w)) == Sum(w)
    decreases |w|
  {
    if w != [] {
      var init := w[..|w| - 1];
      assert w == init + [w[|w| - 1]];
      ReverseSnoc(init, w[|w| - 1]);
      SumFront(w[|w| - 1], Reverse(init));
      SumReverse(init);
    }
  }

  /** Every value lies between the bounds `lo` and `hi` of the window, so
      does their total, scaled by the window's length. */
  lemma {:induction false} SumBounds(w: seq<Sample>, lo: real, hi: real)
    requires forall j :: 0 <= j < |w| ==> lo <= w[j].value <= hi
    ensures lo * (|w| as real) <= Sum(w) <= hi * (|w| as real)
  {
    if w != [] {
      SumBounds(w[..|w| - 1], lo, hi);
      assert w[|w| - 1].value >= lo;
    }
  }

  /** The mean of values that all lie in `[lo, hi]` lies there too. */
  lemma MeanBounds(w: seq<Sample>, lo: real, hi: real)
    requires |w| > 0
    requires forall j :: 0 <= j < |w| ==> lo <= w[j].value <= hi
    ensures lo <= Mean(w) <= hi
  {
    SumBounds(w, lo, hi);
    var n := |w| as real;
    CancelPositive(lo, Mean(w), n);
    CancelPositive(Mean(w), hi, n);
  }

  /** The average entry of a window lies between its minimum and maximum
      entries. */
  lemma MeanBetweenExtremes(w: seq<Sample>)
    requires |w| > 0
    ensures Consolidate(Min, w).value <= Consolidate(Avg, w).value <= Consolidate(Max, w).value
  {
    MeanBounds(w, w[MinElement(w)].value, w[MaxElement(w)].value);
  }

  lemma CancelPositive(a: real, b: real, n: real)
    requires n > 0.0 && a * n <= b * n
    ensures a <= b
  {
    assert (b - a) * n == b * n - a * n;
  }
}
