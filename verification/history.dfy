/** A reference description of an archive's contents that does not replay the
    archive call by call: the stream is cut into consecutive windows of
    `steps` samples, every complete window is consolidated, and the ring
    holds the newest `rows` of those consolidations. */
module History {
  import opened Points
  import opened Consolidation
  import opened Archives

  /** Consecutive complete windows of `k` samples, oldest first; an
      incomplete tail is not a window. */
  function Windows<T>(xs: seq<T>, k: nat): (ws: seq<seq<T>>)
    requires k >= 1
    ensures forall i :: 0 <= i < |ws| ==> |ws[i]| == k
    decreases |xs|
  {
    if |xs| < k then [] else [xs[..k]] + Windows(xs[k..], k)
  }

  /** The samples after the last complete window. */
  function Leftover<T>(xs: seq<T>, k: nat): (r: seq<T>)
    requires k >= 1
    ensures |r| < k
    decreases |xs|
  {
    if |xs| < k then xs else Leftover(xs[k..], k)
  }

  function Flatten<T>(ws: seq<seq<T>>): seq<T>
  {
    if ws == [] then [] else ws[0] + Flatten(ws[1..])
  }

  /** The windows and the leftover, in order, are the stream itself: every
      sample lands in exactly one window or in the leftover. */
  lemma {:induction false} WindowsPartition<T>(xs: seq<T>, k: nat)
    requires k >= 1
    ensures Flatten(Windows(xs, k)) + Leftover(xs, k) == xs
    decreases |xs|
  {
    if |xs| >= k {
      WindowsPartition(xs[k..], k);
      var ws := Windows(xs, k);
      assert ws[1..] == Windows(xs[k..], k);
      assert xs == xs[..k] + xs[k..];
    }
  }

  /** One consolidated entry per window, newest first, nothing evicted. */
  function Consolidated(p: Policy, ws: seq<seq<Sample>>): (h: seq<Sample>)
    requires forall i :: 0 <= i < |ws| ==> |ws[i]| > 0
    ensures |h| == |ws|
    ensures forall j :: 0 <= j < |ws| ==> h[j] == Consolidate(p, Reverse(ws[|ws| - 1 - j]))
  {
    if ws == [] then []
    else [Consolidate(p, Reverse(ws[|ws| - 1]))] + Consolidated(p, ws[..|ws| - 1])
  }

  /** The first (newest) `n` elements, or all of them if there are fewer. */
  function Newest(n: nat, h: seq<Sample>): seq<Sample>
  {
    if |h| <= n then h else h[..n]
  }

  /** What an archive created with this configuration holds after the stream
      `xs`, described without replaying it. */
  function Expected(a: Archive, xs: seq<Sample>): (r: Archive)
  {
    var k := Window(a.steps);
    a.(pending := Reverse(Leftover(xs, k)),
       entries := Newest(a.rows as nat, Consolidated(a.policy, Windows(xs, k))))
  }

  /** One more sample either completes a window or extends the leftover. */
  lemma {:induction false} WindowsSnoc<T>(xs: seq<T>, x: T, k: nat)
    requires k >= 1
    ensures |Leftover(xs, k)| + 1 == k ==>
      Windows(xs + [x], k) == Windows(xs, k) + [Leftover(xs, k) + [x]] && Leftover(xs + [x], k) == []
    ensures |Leftover(xs, k)| + 1 < k ==>
      Windows(xs + [x], k) == Windows(xs, k) && Leftover(xs + [x], k) == Leftover(xs, k) + [x]
    decreases |xs|
  {
    if |xs| < k {
      if |xs| + 1 == k {
        assert (xs + [x])[..k] == xs + [x];
        assert (xs + [x])[k..] == [];
      }
    } else {
      assert (xs + [x])[..k] == xs[..k];
      assert (xs + [x])[k..] == xs[k..] + [x];
      WindowsSnoc(xs[k..], x, k);
    }
  }

  lemma ConsolidatedSnoc(p: Policy, ws: seq<seq<Sample>>, w: seq<Sample>)
    requires forall i :: 0 <= i < |ws| ==> |ws[i]| > 0
    requires |w| > 0
    ensures Consolidated(p, ws + [w]) == [Consolidate(p, Reverse(w))] + Consolidated(p, ws)
  {
    assert (ws + [w])[..|ws|] == ws;
  }

  /** Pushing in front of the newest `rows` and evicting once keeps the
      newest `rows` of the longer history. */
  lemma NewestPush(x: Sample, h: seq<Sample>, rows: u32)
    ensures EvictOldest([x] + Newest(rows as nat, h), rows) == Newest(rows as nat, [x] + h)
  {
    if |h| > rows as nat && rows > 0 {
      assert ([x] + h[..rows])[..rows] == ([x] + h)[..rows];
    }
  }

  /** Replaying any stream into a fresh archive yields the reference
      contents: the buffer holds the leftover samples newest-first, and the
      ring holds the consolidations of the newest `rows` complete windows. */
  lemma {:induction false} FeedMatchesExpected(a: Archive, xs: seq<Sample>)
    requires a.pending == [] && a.entries == []
    ensures Feed(a, xs) == Expected(a, xs)
    decreases |xs|
  {
    if xs != [] {
      var init := xs[..|xs| - 1];
      var x := xs[|xs| - 1];
      assert xs == init + [x];
      FeedMatchesExpected(a, init);
      var st := Feed(a, init);
      var k := Window(a.steps);
      var left := Leftover(init, k);
      var ws := Windows(init, k);
      WindowsSnoc(init, x, k);
      ReverseSnoc(left, x);
      if |left| + 1 == k {
        ConsolidatedSnoc(a.policy, ws, left + [x]);
        NewestPush(Consolidate(a.policy, Reverse(left + [x])), Consolidated(a.policy, ws), a.rows);
        if a.steps == 1 || a.steps == 0 {
          assert left == [];
          assert Reverse(left + [x]) == [x];
          ConsolidateSingleton(a.policy, x);
        }
      }
    }
  }

  /** The ring holds as many entries as there were complete windows, up to
      `rows`. */
  lemma EntryCount(a: Archive, xs: seq<Sample>)
    requires a.pending == [] && a.entries == []
    ensures |Feed(a, xs).entries| == if |Windows(xs, Window(a.steps))| <= a.rows as nat
                                     then |Windows(xs, Window(a.steps))| else a.rows as nat
  {
    FeedMatchesExpected(a, xs);
  }

  /** A stream of exactly `n` windows is cut at the multiples of `k`. */
  lemma {:induction false} WindowsOfMultiple<T>(xs: seq<T>, n: nat, k: nat)
    requires k >= 1 && |xs| == n * k
    ensures |Windows(xs, k)| == n
    ensures forall j :: 0 <= j < n ==>
      j * k + k <= |xs| && Windows(xs, k)[j] == xs[j * k .. j * k + k]
    ensures Leftover(xs, k) == []
    decreases n
  {
    if n > 0 {
      MulPred(n, k);
      assert |xs| >= k;
      var tail := xs[k..];
      assert |tail| == (n - 1) * k;
      WindowsOfMultiple(tail, n - 1, k);
      var ws := Windows(xs, k);
      assert ws == [xs[..k]] + Windows(tail, k);
      assert |ws| == n;
      assert Leftover(xs, k) == [];
      forall j | 0 <= j < n
        ensures j * k + k <= |xs| && ws[j] == xs[j * k .. j * k + k]
      {
        MulPred(j + 1, k);
        MulMono(j + 1, n, k);
        if j == 0 {
          assert j * k == 0;
        } else {
          MulPred(j, k);
          MulMono(j, n - 1, k);
          var a := (j - 1) * k;
          assert ws[j] == Windows(tail, k)[j - 1];
          SliceOfSlice(xs, k, a, a + k);
        }
      }
    }
  }

  lemma SliceOfSlice<T>(xs: seq<T>, k: nat, a: nat, b: nat)
    requires k <= |xs| && a <= b <= |xs| - k
    ensures xs[k..][a..b] == xs[k + a .. k + b]
  {
  }

  lemma {:induction false} MulMono(j: nat, n: nat, k: nat)
    requires j <= n
    ensures j * k <= n * k
    decreases n - j
  {
    if j < n {
      MulMono(j + 1, n, k);
      MulPred(j + 1, k);
    }
  }

  lemma MulPred(n: nat, k: nat)
    requires n > 0
    ensures n * k == (n - 1) * k + k
    ensures (n - 1) * k >= 0
  {
  }
}
