# librrd consolidation and eviction, modelled in Dafny

librrd is a small round robin database library. A database (`rrd_data`) owns
an ordered list of round robin archives (`rrd_archive`). Every measurement
recorded in the database becomes one primary data point (`rrd_data_point`:
a value and a time). The database offers that point to each archive in turn.

Each archive has four settings: a name, `steps` (how many points are folded
into one entry), `rows` (how many entries are kept) and a consolidation
function (average, minimum or maximum). An archive with `steps == 1` stores
every point directly. Any other archive buffers points newest-first. When the
buffer reaches `steps` points, it folds them into one consolidated entry and
clears the buffer:

- average: the mean of the buffered values, stamped with the newest point's time;
- minimum: the first smallest point in newest-first order, with its own time;
- maximum: the first largest point in newest-first order, with its own time.

The entries are kept newest-first. After every addition, if there are more
than `rows` entries, the oldest one is dropped.

The model is functional:

- `Points.Sample` is the immutable (value, time) pair. Values are `real` and
  times are `int` milliseconds since the epoch.
- `Archives.Archive` holds the configuration, the pending buffer and the
  entries.
- `Archives.Add` is one addition and `Archives.Feed` replays a stream.
- `Databases.Database` holds a name and a sequence of archives.

Samples are values, so the `std::shared_ptr<rrd_data_point>` the library
shares between all archives cannot expose one archive's buffer to another.

The central result is `History.FeedMatchesExpected`. It compares a fresh
archive fed any stream with a description that does not replay the archive
call by call:

- the stream is cut into consecutive windows of `steps` samples;
- every complete window is consolidated;
- the ring holds the newest `rows` of those consolidations;
- the buffer holds the samples after the last complete window, newest first.

The three unit-test scenarios are proved as lemmas (`Scenarios`). The
hundred-sample scenario is derived from `History.FeedMatchesExpected`. The two
small scenarios unfold `Archives.Add` one sample at a time.

Files:

- `points.dfy`: `Outcomes` (result type) and `Points` (samples, `u32`, `Reverse`).
- `consolidation.dfy`: the consolidation functions and their properties.
- `archives.dfy`: the archive state machine.
- `history.dfy`: the reference description and its equivalence with replay.
- `databases.dfy`: the fan-out to archives and the dump success flag.
- `scenarios.dfy`: the unit tests' scenarios.

Behaviour of the library that a reader might not expect, and one departure:

- The library's constructor accepts `steps == 0` and `rows == 0`
  (src/librrd.cpp:19-25), and so does the model. With zero steps every
  point is consolidated on its own, which is the same as one step
  (`Archives.ZeroStepsActsAsOne`). With zero rows every entry is dropped as
  soon as it is added.
- Eviction happens when the ring holds strictly more than `rows` entries,
  and at most one entry is dropped per addition, as in `src/librrd.cpp`
  lines 42-46.
- One deliberate departure from the code: a consolidation-function code
  outside `AVG`/`MIN`/`MAX` is refused when the archive is created
  (`Archives.New` returns `Err`). The library instead accepts it, and only an
  assertion catches it when the archive first consolidates.

## Model

| member | source | states |
|---|---|---|
| `Consolidation.PolicyFromCode` | src/librrd.h:42-46 | Exactly the enumerator codes 0, 1, 2 (AVG, MIN, MAX) decode to a policy, and back to the same code. Every other code is refused with that code as the error. |
| `Consolidation.Mean` | src/librrd.cpp:76-81 | The "sum" of the buffer is really its mean: it times the buffer length equals the total of the buffered values. |
| `Consolidation.SumReverse` | src/librrd.cpp:76-81 | The accumulated total does not depend on the order in which the buffer is walked. |
| `Consolidation.ScanMin` | src/librrd.cpp:83-88 | The `std::min_element` scan, which replaces its candidate only on a strictly smaller value, ends on the first position holding the smallest value. |
| `Consolidation.ScanMax` | src/librrd.cpp:90-95 | The `std::max_element` scan, which replaces its candidate only when it is strictly smaller than the current value, ends on the first position holding the largest value. |
| `Consolidation.MinElement` | src/librrd.cpp:83-88 | For a non-empty buffer, the chosen position holds a value no larger than any other, and every earlier (newer) position holds a strictly larger value. |
| `Consolidation.MaxElement` | src/librrd.cpp:90-95 | For a non-empty buffer, the chosen position holds a value no smaller than any other, and every earlier (newer) position holds a strictly smaller value. |
| `Consolidation.FirstMinUnique` | src/librrd.cpp:83-88 | The newest-first tie-break picks one position only, so the minimum entry is fully determined by the buffer. |
| `Consolidation.FirstMaxUnique` | src/librrd.cpp:90-95 | The same for the maximum: at most one position is the first largest. |
| `Consolidation.Consolidate` | src/librrd.cpp:59-73 | AVG gives the mean of the buffer stamped with the newest sample's time. MIN and MAX give a buffered sample itself, with its own time: the first smallest or first largest in newest-first order. |
| `Consolidation.ConsolidateSingleton` | src/librrd.cpp:28-31 | A one-sample buffer consolidates to that very sample under every policy. So storing each point directly when `steps == 1` agrees with consolidating it. |
| `Consolidation.MeanBounds` | src/librrd.cpp:76-81 | The mean of values that all lie in an interval lies in that interval. |
| `Consolidation.MeanBetweenExtremes` | src/librrd.cpp:59-69 | For the same buffer, the average entry's value lies between the minimum entry's and the maximum entry's values. |
| `Archives.New` | src/librrd.cpp:19-25 | A new archive keeps the given name, steps, rows and policy, and starts with an empty buffer and no entries, which satisfies the invariants. Exactly the known policy codes are accepted. |
| `Archives.EvictOldest` | src/librrd.cpp:42-46 | The result is a prefix of the ring. It is one shorter exactly when the ring exceeded `rows`, so only the oldest entry can go. |
| `Archives.Add` | src/librrd.cpp:27-47 | Configuration never changes. With `steps == 1` the sample itself goes in front of the entries and the buffer is untouched. Otherwise the sample joins the front of the buffer. If that fills a window, exactly one consolidated entry goes in front and the buffer empties. If not, the entries stay as they were. In every case at most the oldest entry is dropped, and only when over `rows`. The capacity and buffer invariants are preserved. |
| `Archives.Feed` | src/librrd.cpp:27-47 | Over any stream of additions the configuration is unchanged and the invariants (at most `rows` entries, fewer than `steps` buffered samples) keep holding. |
| `Archives.AddBelowCapacity` | src/librrd.cpp:42-46 | Below capacity nothing is evicted. The entries are unchanged, or they are the old entries with one new entry in front. |
| `Archives.FeedConcat` | src/librrd.cpp:27-47 | Replaying two streams one after the other is the same as replaying their concatenation. |
| `Archives.ZeroStepsActsAsOne` | src/librrd.cpp:32-40 | With `steps == 0` the size test always passes, so each sample is consolidated alone. The buffer stays empty and the entries equal those of a one-step archive. |
| `History.WindowsPartition` | src/librrd.cpp:32-40 | The consolidation windows followed by the leftover samples are exactly the stream. Every sample belongs to one window or to the leftover. |
| `History.FeedMatchesExpected` | src/librrd.cpp:27-57 | A fresh archive fed any stream holds the newest `rows` consolidations of the consecutive `steps`-sample windows, newest first. Its buffer holds the samples after the last complete window, newest first. |
| `History.EntryCount` | src/librrd.cpp:42-46 | After any stream the ring holds min(number of complete windows, `rows`) entries. |
| `History.WindowsOfMultiple` | src/librrd.cpp:32-40 | A stream of `n * k` samples splits into `n` windows. Window `j` is samples `j*k` up to `j*k + k`, and nothing is left over. |
| `Databases.Offer` | src/librrd.cpp:156-162 | Each archive in the list receives the same sample once, and the list keeps its length and order. |
| `Databases.Add` | src/librrd.cpp:156-162 | Recording a value at a time gives every archive the identical sample built from that value and time. The database name, the number and order of archives and each archive's configuration are unchanged. Validity of all archives is preserved. |
| `Databases.FeedPointwise` | src/librrd.h:101-121 | After any stream, archive `i` of the database is exactly archive `i` fed the stream on its own. The archive list is never reordered, grown or shrunk. |
| `Databases.DumpAll` | src/librrd.cpp:164-179 | The dump succeeds exactly when every archive's file `prefix + name + ".rrd"` can be opened. Every openable file receives its archive's entries newest-first, even after an earlier failure. Nothing else is written. |
| `Databases.Dump` | src/librrd.cpp:164-179 | For the database's archive list: the dump succeeds exactly when every archive's file opens, every openable archive's file receives its entries, and every file written is some archive's openable file holding that archive's entries. |
| `Scenarios.TwoSamples` | src/tests/test.cpp:63-122 | Two samples (0 at 0 ms, 1.2 at 1 ms) give: all = [(1, 1.2), (0, 0)], min = [(0, 0)], max = [(1, 1.2)], avg = [(1, 0.6)]. |
| `Scenarios.ThreeSamples` | src/tests/test.cpp:124-185 | A third sample (2.4 at 2 ms) only extends the "all" archive. It waits alone in the buffers of the min, max and avg archives, whose entries are unchanged. |
| `Scenarios.HundredSamples` | src/tests/test.cpp:187-239 | 100 samples `i % 10` at `i` ms with ten steps and five rows. The "all" archive keeps 100 entries. min = value 0 at 90, 80, 70, 60, 50. max = value 9 at 99, 89, 79, 69, 59. avg = value 4.5 at 99, 89, 79, 69, 59. |

## Left out

- Text rendering of entries (`rrd_archive::dump`, src/librrd.cpp:111-149) is left out. It covers stream float formatting (default, fixed, scientific) and ISO-8601 time via `localtime_r`/`put_time`, which are platform I/O. The model only says which entries each file receives, in stored order.
- Databases.Dump: file opening is a parameter (`canOpen`) standing for the file system. The contract states which files are written and the success flag, but not the order of the writes, which is archive order.
- Databases.DumpAll: two archives with the same name share one file path. The library opens the file a second time, which truncates it, so only the later archive's entries remain (src/librrd.cpp:169-170). The model lists both writes to that path and, as it does not state write order, leaves that file's final content open.
- The header declares `dump(std::ostream&)` and a `void` database dump, while the implementation takes format parameters and returns `bool`. The model follows the implementation.
- `cf_to_str` and the `LOG`/`LOGERR` macros only produce diagnostic text.
- Values are exact `real`s, not IEEE doubles. Rounding in the mean and the tests' 0.01 tolerance are therefore not modelled.
- `std::chrono` time points are `int` milliseconds since the epoch.
- `src/example.cpp` reads `/proc` counters and runs a timed sampling loop, which is I/O and timing only.
- `std::shared_ptr` sharing of one point among archives is modelled by passing the same immutable value to each archive.
- A code outside the consolidation-function enumeration is refused at construction. The library's runtime assertion and its non-debug fallback (value 0 at the newest time, src/librrd.cpp:70-72) are not modelled.
