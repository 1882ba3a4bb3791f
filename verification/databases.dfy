/** A round robin database: a named, fixed, ordered list of archives that all
    consume the same stream of samples. */
module Databases {
  import opened Points
  import Archives

  datatype Database = Database(name: string, archives: seq<Archives.Archive>)

  predicate Valid(db: Database)
  {
    forall i :: 0 <= i < |db.archives| ==> Archives.Valid(db.archives[i])
  }

  /** Offers one sample to each archive in turn, front of the list first. */
  function Offer(archives: seq<Archives.Archive>, s: Sample): (r: seq<Archives.Archive>)
    ensures |r| == |archives|
    ensures forall i :: 0 <= i < |archives| ==> r[i] == Archives.Add(archives[i], s)
  {
    if archives == [] then [] else [Archives.Add(archives[0], s)] + Offer(archives[1..], s)
  }

  /** Records one measurement: every archive receives the same sample built
      from `value` and `time`; the list itself is neither reordered, grown
      nor shrunk, and no archive's configuration changes. */
  function Add(db: Database, value: real, time: int): (r: Database)
    ensures r.name == db.name
    ensures |r.archives| == |db.archives|
    ensures forall i :: 0 <= i < |db.archives| ==>
      && r.archives[i] == Archives.Add(db.archives[i], Sample(value, time))
      && Archives.SameConfig(db.archives[i], r.archives[i])
    ensures Valid(db) ==> Valid(r)
  {
    db.(archives := Offer(db.archives, Sample(value, time)))
  }

  /** Records a chronologically ordered stream of measurements. */
  function Feed(db: Database, xs: seq<Sample>): Database
  {
    if xs == [] then db else
      var last := xs[|xs| - 1];
      Add(Feed(db, xs[..|xs| - 1]), last.value, last.time)
  }

  /** Archives evolve independently: after any stream each archive of the
      database is exactly the archive that received the stream alone. */
  lemma {:induction false} FeedPointwise(db: Database, xs: seq<Sample>)
    ensures Feed(db, xs).name == db.name
    ensures |Feed(db, xs).archives| == |db.archives|
    ensures forall i :: 0 <= i < |db.archives| ==>
      Feed(db, xs).archives[i] == Archives.Feed(db.archives[i], xs)
    decreases |xs|
  {
    if xs != [] {
      FeedPointwise(db, xs[..|xs| - 1]);
    }
  }

  // ------------------------------------------------------------------ dump

  /** What one archive's file receives: its entries in stored order, newest
      first. Rendering each entry as text is not modelled. */
  datatype DumpFile = DumpFile(path: string, entries: seq<Sample>)

  datatype DumpReport = DumpReport(success: bool, files: seq<DumpFile>)

  function FileName(prefix: string, a: Archives.Archive): string
  {
    prefix + a.name + ".rrd"
  }

  /** Dumps each archive to its own file; `canOpen` stands for whether the
      file system lets that file be opened for writing. */
  function DumpAll(archives: seq<Archives.Archive>, prefix: string, canOpen: string -> bool): (r: DumpReport)
    ensures r.success <==> forall i :: 0 <= i < |archives| ==> canOpen(FileName(prefix, archives[i]))
    ensures forall i :: 0 <= i < |archives| && canOpen(FileName(prefix, archives[i])) ==>
      DumpFile(FileName(prefix, archives[i]), archives[i].entries) in r.files
    ensures forall f :: f in r.files ==>
      canOpen(f.path) && exists i :: 0 <= i < |archives| && f == DumpFile(FileName(prefix, archives[i]), archives[i].entries)
  {
    if archives == [] then DumpReport(true, [])
    else
      var a := archives[0];
      var rest := DumpAll(archives[1..], prefix, canOpen);
      var path := FileName(prefix, a);
      if canOpen(path) then DumpReport(rest.success, [DumpFile(path, a.entries)] + rest.files)
      else DumpReport(false, rest.files)
  }

  /** Dumps all archives: a file that cannot be opened makes the result
      false, but the remaining archives are still dumped. */
  function Dump(db: Database, prefix: string, canOpen: string -> bool): (r: DumpReport)
    ensures r.success <==> forall i :: 0 <= i < |db.archives| ==> canOpen(FileName(prefix, db.archives[i]))
    ensures forall i :: 0 <= i < |db.archives| && canOpen(FileName(prefix, db.archives[i])) ==>
      DumpFile(FileName(prefix, db.archives[i]), db.archives[i].entries) in r.files
    ensures forall f :: f in r.files ==>
      canOpen(f.path) && exists i :: 0 <= i < |db.archives| && f == DumpFile(FileName(prefix, db.archives[i]), db.archives[i].entries)
  {
    DumpAll(db.archives, prefix, canOpen)
  }
}
