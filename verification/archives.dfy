/** A round robin archive (RRA): a buffer of primary data points waiting to be
    consolidated and a bounded ring of consolidated entries. */
module Archives {
  import opened Outcomes
  import opened Points
  import opened Consolidation

  /** `steps` samples are folded into one entry; at most `rows` entries are
      kept. Both `pending` and `entries` are newest-first. */
  datatype Archive = Archive(
    name: string,
    steps: u32,
    rows: u32,
    policy: Policy,
    pending: seq<Sample>,
    entries: seq<Sample>)

  /** Name, steps, rows and consolidation function agree. */
  predicate SameConfig(a: Archive, b: Archive)
  {
    a.name == b.name && a.steps == b.steps && a.rows == b.rows && a.policy == b.policy
  }

  /** Number of samples that make up one entry. A zero `steps` still folds
      each sample on its own, exactly as `steps == 1` does. */
  function Window(steps: u32): nat
  {
    if steps == 0 then 1 else steps as nat
  }

  /** The archive's invariants between calls: the ring is within capacity and
      the buffer never holds a complete window. */
  predicate Valid(a: Archive)
  {
    |a.entries| <= a.rows as nat && |a.pending| < Window(a.steps)
  }

  /** `after` is `before` with at most its oldest (last) element removed, and
      that element is removed exactly when `before` is over capacity. */
  predicate Trimmed(before: seq<Sample>, after: seq<Sample>, rows: nat)
  {
    && after <= before
    && |after| == (if |before| > rows then |before| - 1 else |before|)
  }

  /** Creates an empty archive; a consolidation-function code outside the
      enumeration is refused. */
  function New(name: string, steps: u32, rows: u32, cf: int): (r: Result<Archive, ConfigError>)
    ensures r.Ok? <==> 0 <= cf <= 2
    ensures r.Err? ==> r.error == UnknownPolicy(cf)
    ensures r.Ok? ==>
      && r.value.name == name && r.value.steps == steps && r.value.rows == rows
      && PolicyCode(r.value.policy) == cf
      && r.value.pending == [] && r.value.entries == []
      && Valid(r.value)
  {
    match PolicyFromCode(cf)
    case Ok(p) => Ok(Archive(name, steps, rows, p, [], []))
    case Err(e) => Err(e)
  }

  /** Pops the oldest entry once if the ring exceeds its capacity. */
  function EvictOldest(e: seq<Sample>, rows: u32): (r: seq<Sample>)
    ensures Trimmed(e, r, rows as nat)
  {
    if |e| > rows as nat then e[..|e| - 1] else e
  }

  /** Adds one primary data point. */
  function Add(a: Archive, s: Sample): (r: Archive)
    ensures SameConfig(a, r)
    ensures a.steps == 1 ==>
      r.pending == a.pending && Trimmed([s] + a.entries, r.entries, a.rows as nat)
    ensures a.steps != 1 && |a.pending| + 1 >= a.steps as nat ==>
      && r.pending == []
      && Trimmed([Consolidate(a.policy, [s] + a.pending)] + a.entries, r.entries, a.rows as nat)
    ensures a.steps != 1 && |a.pending| + 1 < a.steps as nat ==>
      r.pending == [s] + a.pending && Trimmed(a.entries, r.entries, a.rows as nat)
    ensures Valid(a) ==> Valid(r)
  {
    if a.steps == 1 then
      a.(entries := EvictOldest([s] + a.entries, a.rows))
    else
      var buffered := [s] + a.pending;
      if |buffered| >= a.steps as nat then
        var entry := Consolidate(a.policy, buffered);
        a.(pending := [], entries := EvictOldest([entry] + a.entries, a.rows))
      else
        a.(pending := buffered, entries := EvictOldest(a.entries, a.rows))
  }

  /** Adds a chronologically ordered stream of samples, oldest first. */
  function Feed(a: Archive, xs: seq<Sample>): (r: Archive)
    ensures SameConfig(a, r)
    ensures Valid(a) ==> Valid(r)
  {
    if xs == [] then a else Add(Feed(a, xs[..|xs| - 1]), xs[|xs| - 1])
  }

  /** Below capacity nothing is evicted: a consolidated entry lands in front
      of all earlier entries, which are kept as they were. */
  lemma AddBelowCapacity(a: Archive, s: Sample)
    requires Valid(a) && |a.entries| < a.rows as nat
    ensures |Add(a, s).entries| >= |a.entries|
    ensures Add(a, s).entries == a.entries || Add(a, s).entries[1..] == a.entries
  {
  }

  /** Feeding two streams one after the other is feeding their concatenation. */
  lemma {:induction false} FeedConcat(a: Archive, xs: seq<Sample>, ys: seq<Sample>)
    ensures Feed(Feed(a, xs), ys) == Feed(a, xs + ys)
    decreases |ys|
  {
    if ys == [] {
      assert xs + ys == xs;
    } else {
      FeedConcat(a, xs, ys[..|ys| - 1]);
      assert (xs + ys)[..|xs + ys| - 1] == xs + ys[..|ys| - 1];
    }
  }

  /** With `steps == 0` the library folds every sample on its own; the ring
      then evolves exactly as in a `steps == 1` archive. */
  lemma {:induction false} ZeroStepsActsAsOne(a: Archive, xs: seq<Sample>)
    requires a.steps == 0 && a.pending == []
    ensures Feed(a, xs).pending == []
    ensures Feed(a, xs).entries == Feed(a.(steps := 1), xs).entries
    ensures Feed(a.(steps := 1), xs).pending == []
  {
    if xs != [] {
      var init := xs[..|xs| - 1];
      var s := xs[|xs| - 1];
      ZeroStepsActsAsOne(a, init);
      ConsolidateSingleton(a.policy, s);
    }
  }
}
