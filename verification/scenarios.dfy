/** The end-to-end scenarios of the library's unit tests, stated over the
    model. Values are exact reals here, so the tests' tolerance of 0.01 is
    not needed. */
module Scenarios {
  import opened Points
  import opened Consolidation
  import Archives
  import History
  import Databases

  /** The database every test builds: an archive keeping every sample
      ("all"), then the minimum, maximum and average of every `steps`
      samples, each keeping `rows` entries. */
  function TestDatabase(allRows: u32, steps: u32, rows: u32): (db: Databases.Database)
    ensures Databases.Valid(db)
  {
    Databases.Database("foo", [
      Archives.Archive("all", 1, allRows, Avg, [], []),
      Archives.Archive("min", steps, rows, Min, [], []),
      Archives.Archive("max", steps, rows, Max, [], []),
      Archives.Archive("avg", steps, rows, Avg, [], [])])
  }

  // ------------------------------------------------ two and three samples

  lemma FeedTwo(a: Archives.Archive, s0: Sample, s1: Sample)
    ensures Archives.Feed(a, [s0, s1]) == Archives.Add(Archives.Add(a, s0), s1)
  {
    assert [s0][..0] == [];
    assert Archives.Feed(a, [s0]) == Archives.Add(a, s0);
    assert [s0, s1][..1] == [s0];
  }

  lemma FeedThree(a: Archives.Archive, s0: Sample, s1: Sample, s2: Sample)
    ensures Archives.Feed(a, [s0, s1, s2]) == Archives.Add(Archives.Feed(a, [s0, s1]), s2)
  {
    assert [s0, s1, s2][..2] == [s0, s1];
  }

  /** The one window of the two-sample run, newest first. */
  lemma FirstWindow()
    ensures Consolidate(Min, [Sample(1.2, 1), Sample(0.0, 0)]) == Sample(0.0, 0)
    ensures Consolidate(Max, [Sample(1.2, 1), Sample(0.0, 0)]) == Sample(1.2, 1)
    ensures Consolidate(Avg, [Sample(1.2, 1), Sample(0.0, 0)]) == Sample(0.6, 1)
  {
    var w := [Sample(1.2, 1), Sample(0.0, 0)];
    assert MinElement(w) == 1;
    assert MaxElement(w) == 0;
    assert Sum(w) == 1.2 by {
      assert w[..1] == [w[0]];
      assert w[..1][..0] == [];
    }
  }

  /** A fresh two-step, one-row archive fed the two samples. */
  lemma TwoStepArchive(a: Archives.Archive)
    requires a.steps == 2 && a.rows == 1 && a.pending == [] && a.entries == []
    ensures Archives.Feed(a, [Sample(0.0, 0), Sample(1.2, 1)]).pending == []
    ensures Archives.Feed(a, [Sample(0.0, 0), Sample(1.2, 1)]).entries
         == [Consolidate(a.policy, [Sample(1.2, 1), Sample(0.0, 0)])]
  {
    var s0, s1 := Sample(0.0, 0), Sample(1.2, 1);
    FeedTwo(a, s0, s1);
    var a1 := Archives.Add(a, s0);
    assert a1.pending == [s0] && a1.entries == [];
    var a2 := Archives.Add(a1, s1);
    assert [s1] + a1.pending == [s1, s0];
    var c := Consolidate(a.policy, [s1, s0]);
    assert a2.entries <= [c] + [] && |a2.entries| == 1;
  }

  /** Two samples, 0 at 0 ms and 1.2 at 1 ms, folded two at a time into
      archives of one row. */
  lemma TwoSamples()
    ensures var db := Databases.Feed(TestDatabase(2, 2, 1), [Sample(0.0, 0), Sample(1.2, 1)]);
      && |db.archives| == 4
      && db.archives[0].entries == [Sample(1.2, 1), Sample(0.0, 0)]
      && db.archives[1].entries == [Sample(0.0, 0)]
      && db.archives[2].entries == [Sample(1.2, 1)]
      && db.archives[3].entries == [Sample(0.6, 1)]
  {
    var db0 := TestDatabase(2, 2, 1);
    var xs := [Sample(0.0, 0), Sample(1.2, 1)];
    Databases.FeedPointwise(db0, xs);
    FeedTwo(db0.archives[0], xs[0], xs[1]);
    TwoStepArchive(db0.archives[1]);
    TwoStepArchive(db0.archives[2]);
    TwoStepArchive(db0.archives[3]);
    FirstWindow();
  }

  /** A fresh two-step, one-row archive fed a third sample. */
  lemma TwoStepArchiveThird(a: Archives.Archive)
    requires a.steps == 2 && a.rows == 1 && a.pending == [] && a.entries == []
    ensures Archives.Feed(a, [Sample(0.0, 0), Sample(1.2, 1), Sample(2.4, 2)]).pending == [Sample(2.4, 2)]
    ensures Archives.Feed(a, [Sample(0.0, 0), Sample(1.2, 1), Sample(2.4, 2)]).entries
         == [Consolidate(a.policy, [Sample(1.2, 1), Sample(0.0, 0)])]
  {
    FeedThree(a, Sample(0.0, 0), Sample(1.2, 1), Sample(2.4, 2));
    TwoStepArchive(a);
  }

  /** The every-sample archive of three rows fed the three samples. */
  lemma AllArchiveThree(a: Archives.Archive)
    requires a.steps == 1 && a.rows == 3 && a.entries == []
    ensures Archives.Feed(a, [Sample(0.0, 0), Sample(1.2, 1), Sample(2.4, 2)]).entries
         == [Sample(2.4, 2), Sample(1.2, 1), Sample(0.0, 0)]
  {
    var s0, s1, s2 := Sample(0.0, 0), Sample(1.2, 1), Sample(2.4, 2);
    FeedThree(a, s0, s1, s2);
    FeedTwo(a, s0, s1);
    var a1 := Archives.Add(a, s0);
    assert a1.entries == [s0];
    var a2 := Archives.Add(a1, s1);
    assert a2.entries == [s1, s0];
    var a3 := Archives.Add(a2, s2);
    assert a3.entries <= [s2, s1, s0] && |a3.entries| == 3;
  }

  /** A third sample, 2.4 at 2 ms, only waits in the buffers of the
      two-step archives: their rings are those of the two-sample run. */
  lemma ThreeSamples()
    ensures var db := Databases.Feed(TestDatabase(3, 2, 1), [Sample(0.0, 0), Sample(1.2, 1), Sample(2.4, 2)]);
      && |db.archives| == 4
      && db.archives[0].entries == [Sample(2.4, 2), Sample(1.2, 1), Sample(0.0, 0)]
      && db.archives[1].entries == [Sample(0.0, 0)]
      && db.archives[2].entries == [Sample(1.2, 1)]
      && db.archives[3].entries == [Sample(0.6, 1)]
      && db.archives[1].pending == [Sample(2.4, 2)]
      && db.archives[2].pending == [Sample(2.4, 2)]
      && db.archives[3].pending == [Sample(2.4, 2)]
  {
    var db0 := TestDatabase(3, 2, 1);
    var xs := [Sample(0.0, 0), Sample(1.2, 1), Sample(2.4, 2)];
    Databases.FeedPointwise(db0, xs);
    AllArchiveThree(db0.archives[0]);
    TwoStepArchiveThird(db0.archives[1]);
    TwoStepArchiveThird(db0.archives[2]);
    TwoStepArchiveThird(db0.archives[3]);
    FirstWindow();
  }

  // ------------------------------------------------------ hundred samples

  /** `n` samples with values 0, 1, ..., n - 1, one per millisecond from `base`. */
  function Ramp(n: nat, base: int): (r: seq<Sample>)
    ensures |r| == n
  {
    seq(n, i => Sample(i as real, base + i))
  }

  /** The tests' stream: 100 samples, value `i % 10` at `i` ms. */
  function Saw(): (r: seq<Sample>)
    ensures |r| == 100
  {
    seq(100, i => Sample((i % 10) as real, i))
  }

  /** `xs` is the tests' stream, described sample by sample. The proofs work
      from this description rather than from `Saw()` itself: a stream given
      as one closed term would be unfolded by the verifier wholesale, while
      this predicate lets each lemma look only at the samples it needs. */
  predicate IsSaw(xs: seq<Sample>)
  {
    |xs| == 100 && forall i :: 0 <= i < 100 ==> xs[i] == Sample((i % 10) as real, i)
  }

  function Triangle(n: nat): real
  {
    if n == 0 then 0.0 else Triangle(n - 1) + (n - 1) as real
  }

  lemma {:induction false} SumRamp(n: nat, base: int)
    ensures Sum(Ramp(n, base)) == Triangle(n)
  {
    if n > 0 {
      assert Ramp(n, base)[..n - 1] == Ramp(n - 1, base);
      SumRamp(n - 1, base);
    }
  }

  /** The `w`-th ten-sample window of the stream is a ramp 0..9. */
  lemma SawWindow(xs: seq<Sample>, w: nat)
    requires IsSaw(xs) && w < 10
    ensures xs[w * 10 .. w * 10 + 10] == Ramp(10, w * 10)
  {
    var s := xs[w * 10 .. w * 10 + 10];
    forall i | 0 <= i < 10
      ensures s[i] == Ramp(10, w * 10)[i]
    {
      assert (w * 10 + i) % 10 == i;
    }
  }

  /** Consolidating one window, stored newest-first. */
  lemma RampWindowEntries(w: int)
    ensures Consolidate(Min, Reverse(Ramp(10, w))) == Sample(0.0, w)
    ensures Consolidate(Max, Reverse(Ramp(10, w))) == Sample(9.0, w + 9)
    ensures Consolidate(Avg, Reverse(Ramp(10, w))) == Sample(4.5, w + 9)
  {
    RampWindowMin(w);
    RampWindowMax(w);
    RampWindowAvg(w);
  }

  /** The minimum 0 is the oldest sample of the window, hence the last one
      newest-first. */
  lemma RampWindowMin(w: int)
    ensures Consolidate(Min, Reverse(Ramp(10, w))) == Sample(0.0, w)
  {
    var r := Reverse(Ramp(10, w));
    assert IsFirstMin(r, 10, 9);
    var i :| IsFirstMin(r, 10, i) && Consolidate(Min, r) == r[i];
    FirstMinUnique(r, 10, i, 9);
  }

  /** The maximum 9 is the newest sample of the window. */
  lemma RampWindowMax(w: int)
    ensures Consolidate(Max, Reverse(Ramp(10, w))) == Sample(9.0, w + 9)
  {
    var r := Reverse(Ramp(10, w));
    assert IsFirstMax(r, 10, 0);
    var k :| IsFirstMax(r, 10, k) && Consolidate(Max, r) == r[k];
    FirstMaxUnique(r, 10, k, 0);
  }

  /** The mean of 0..9 is 4.5, stamped with the newest sample's time. */
  lemma RampWindowAvg(w: int)
    ensures Consolidate(Avg, Reverse(Ramp(10, w))) == Sample(4.5, w + 9)
  {
    var r := Reverse(Ramp(10, w));
    SumReverse(Ramp(10, w));
    SumRamp(10, w);
    assert Triangle(10) == 45.0;
    assert Sum(r) == 45.0;
  }

  /** A ten-step, five-row archive fed the stream keeps the consolidations
      of the five newest windows, newest first. */
  lemma SawArchive(a: Archives.Archive, xs: seq<Sample>)
    requires IsSaw(xs)
    requires a.steps == 10 && a.rows == 5 && a.pending == [] && a.entries == []
    ensures |Archives.Feed(a, xs).entries| == 5
    ensures forall j :: 0 <= j < 5 ==>
      Archives.Feed(a, xs).entries[j] == Consolidate(a.policy, Reverse(Ramp(10, 90 - 10 * j)))
  {
    History.FeedMatchesExpected(a, xs);
    History.WindowsOfMultiple(xs, 10, 10);
    var ws := History.Windows(xs, 10);
    var h := History.Consolidated(a.policy, ws);
    assert Archives.Feed(a, xs).entries == h[..5];
    forall j | 0 <= j < 5
      ensures h[j] == Consolidate(a.policy, Reverse(Ramp(10, 90 - 10 * j)))
    {
      SawWindow(xs, 9 - j);
      assert ws[9 - j] == Ramp(10, 90 - 10 * j);
    }
  }

  /** The entries of a ten-step, five-row archive of the given policy. */
  lemma SawEntries(a: Archives.Archive, xs: seq<Sample>, value: real, offset: int)
    requires IsSaw(xs)
    requires a.steps == 10 && a.rows == 5 && a.pending == [] && a.entries == []
    requires a.policy == Min ==> value == 0.0 && offset == 0
    requires a.policy == Max ==> value == 9.0 && offset == 9
    requires a.policy == Avg ==> value == 4.5 && offset == 9
    ensures |Archives.Feed(a, xs).entries| == 5
    ensures forall j :: 0 <= j < 5 ==> Archives.Feed(a, xs).entries[j] == Sample(value, 90 - 10 * j + offset)
  {
    SawArchive(a, xs);
    var e := Archives.Feed(a, xs).entries;
    forall j | 0 <= j < 5 {
      RampWindowEntries(90 - 10 * j);
    }
    forall j | 0 <= j < 5
      ensures e[j] == Sample(value, 90 - 10 * j + offset)
    {
      var w := Reverse(Ramp(10, 90 - 10 * j));
      assert e[j] == Consolidate(a.policy, w);
      match a.policy
      case Min => assert Consolidate(Min, w) == Sample(0.0, 90 - 10 * j);
      case Max => assert Consolidate(Max, w) == Sample(9.0, 90 - 10 * j + 9);
      case Avg => assert Consolidate(Avg, w) == Sample(4.5, 90 - 10 * j + 9);
    }
  }

  lemma Five(e: seq<Sample>, x0: Sample, x1: Sample, x2: Sample, x3: Sample, x4: Sample)
    requires |e| == 5 && e[0] == x0 && e[1] == x1 && e[2] == x2 && e[3] == x3 && e[4] == x4
    ensures e == [x0, x1, x2, x3, x4]
  {
  }

  /** The every-sample archive of 100 rows keeps all 100 samples. */
  lemma AllArchiveHundred(a: Archives.Archive, xs: seq<Sample>)
    requires IsSaw(xs)
    requires a.steps == 1 && a.rows == 100 && a.pending == [] && a.entries == []
    ensures |Archives.Feed(a, xs).entries| == 100
  {
    History.EntryCount(a, xs);
    History.WindowsOfMultiple(xs, 100, 1);
  }

  /** 100 samples `i % 10` at `i` ms, ten steps, five rows. */
  lemma HundredSamples()
    ensures var db := Databases.Feed(TestDatabase(100, 10, 5), Saw());
      && |db.archives| == 4
      && |db.archives[0].entries| == 100
      && db.archives[1].entries ==
           [Sample(0.0, 90), Sample(0.0, 80), Sample(0.0, 70), Sample(0.0, 60), Sample(0.0, 50)]
      && db.archives[2].entries ==
           [Sample(9.0, 99), Sample(9.0, 89), Sample(9.0, 79), Sample(9.0, 69), Sample(9.0, 59)]
      && db.archives[3].entries ==
           [Sample(4.5, 99), Sample(4.5, 89), Sample(4.5, 79), Sample(4.5, 69), Sample(4.5, 59)]
  {
    assert IsSaw(Saw());
    HundredSamplesOf(TestDatabase(100, 10, 5), Saw());
  }

  /** The hundred-sample scenario for any stream satisfying `IsSaw`;
      `HundredSamples` instantiates it with `Saw()`. */
  lemma HundredSamplesOf(db0: Databases.Database, xs: seq<Sample>)
    requires db0 == TestDatabase(100, 10, 5) && IsSaw(xs)
    ensures var db := Databases.Feed(db0, xs);
      && |db.archives| == 4
      && |db.archives[0].entries| == 100
      && db.archives[1].entries ==
           [Sample(0.0, 90), Sample(0.0, 80), Sample(0.0, 70), Sample(0.0, 60), Sample(0.0, 50)]
      && db.archives[2].entries ==
           [Sample(9.0, 99), Sample(9.0, 89), Sample(9.0, 79), Sample(9.0, 69), Sample(9.0, 59)]
      && db.archives[3].entries ==
           [Sample(4.5, 99), Sample(4.5, 89), Sample(4.5, 79), Sample(4.5, 69), Sample(4.5, 59)]
  {
    Databases.FeedPointwise(db0, xs);
    var db := Databases.Feed(db0, xs);
    AllArchiveHundred(db0.archives[0], xs);
    SawEntries(db0.archives[1], xs, 0.0, 0);
    Five(db.archives[1].entries, Sample(0.0, 90), Sample(0.0, 80), Sample(0.0, 70), Sample(0.0, 60), Sample(0.0, 50));
    SawEntries(db0.archives[2], xs, 9.0, 9);
    Five(db.archives[2].entries, Sample(9.0, 99), Sample(9.0, 89), Sample(9.0, 79), Sample(9.0, 69), Sample(9.0, 59));
    SawEntries(db0.archives[3], xs, 4.5, 9);
    Five(db.archives[3].entries, Sample(4.5, 99), Sample(4.5, 89), Sample(4.5, 79), Sample(4.5, 69), Sample(4.5, 59));
  }
}
