/** From the joined workers of a set to its archives: the lists they leave are always
    accepted by the archiver, and the archives never touch the files they are made of. */
module SetPipeline {
  import opened Paths
  import opened Naming
  import opened Volumes
  import Archive
  import F = FanOut

  /** The files a list stands for. */
  function PathsOf(dir: Path, setID: string, entries: seq<F.Entry>): (paths: seq<Path>)
    requires Clean(dir)
    ensures |paths| == |entries|
  {
    seq(|entries|, k requires 0 <= k < |entries| =>
      SetFile(dir, setID, entries[k].idx, entries[k].remote, entries[k].conv))
  }

  lemma EntriesDistinct(dir: Path, setID: string, entries: seq<F.Entry>)
    requires Clean(dir) && forall j, k | 0 <= j < k < |entries| :: entries[j].idx != entries[k].idx
    ensures Archive.DistinctBases(PathsOf(dir, setID, entries))
  {
    forall j, k | 0 <= j < k < |entries|
      ensures Base(PathsOf(dir, setID, entries)[j]) != Base(PathsOf(dir, setID, entries)[k])
    {
      SetNamesDistinct(dir, setID, entries[j].idx, entries[j].remote, entries[j].conv,
                       entries[k].idx, entries[k].remote, entries[k].conv);
    }
  }

  lemma EntriesApart(dir: Path, setID: string, entries: seq<F.Entry>, kind: Kind)
    requires Clean(dir)
    ensures ArchivePath(dir, setID, kind) != []
    ensures Archive.TargetsApart(ArchivePath(dir, setID, kind), PathsOf(dir, setID, entries))
  {
    VolumeBase(dir, setID, kind, 1, 0);
    forall n: nat, k: nat
      ensures VolumePath(ArchivePath(dir, setID, kind), n, k) !in PathsOf(dir, setID, entries)
    {
      forall i | 0 <= i < |entries|
        ensures VolumePath(ArchivePath(dir, setID, kind), n, k) != PathsOf(dir, setID, entries)[i]
      {
        ArchiveIsNoFile(dir, setID, kind, n, k, entries[i].idx, entries[i].remote, entries[i].conv);
      }
    }
  }

  lemma ConsDistinct(first: File, rest: seq<File>)
    requires Archive.DistinctBases(Archive.PathsOf(rest))
    requires forall k | 0 <= k < |rest| :: Base(rest[k].path) != Base(first.path)
    ensures Archive.DistinctBases(Archive.PathsOf([first] + rest))
  {
    var paths := Archive.PathsOf([first] + rest);
    forall j, k | 0 <= j < k < |paths| ensures Base(paths[j]) != Base(paths[k]) {
      assert paths[k] == rest[k - 1].path == Archive.PathsOf(rest)[k - 1];
      assert j > 0 ==> paths[j] == Archive.PathsOf(rest)[j - 1];
    }
  }

  /** Leaving files out of a list keeps its base names apart. */
  lemma {:induction false} StatableDistinct(flist: seq<Path>, stats: seq<Stat>)
    requires |stats| == |flist| && Archive.DistinctBases(flist)
    ensures Archive.DistinctBases(Archive.PathsOf(Statable(flist, stats)))
  {
    if flist != [] {
      var tail := flist[1..];
      var rest := Statable(tail, stats[1..]);
      assert forall j | 0 <= j < |tail| :: tail[j] == flist[j + 1];
      StatableDistinct(tail, stats[1..]);
      if stats[0].Size? {
        Archive.StatableWithin(tail, stats[1..]);
        forall k | 0 <= k < |rest| ensures Base(rest[k].path) != Base(flist[0]) {
          assert rest[k] in rest;
          var j :| 0 <= j < |tail| && tail[j] == rest[k].path;
          assert flist[j + 1] == rest[k].path;
        }
        ConsDistinct(File(flist[0], stats[0].size), rest);
      } else {
        assert Statable(flist, stats) == rest;
      }
    }
  }

  lemma VolumeDistinct(volumes: seq<seq<File>>, files: seq<File>, k: nat)
    requires GreedySplit(volumes, files) && k < |volumes| && Archive.DistinctBases(Archive.PathsOf(files))
    ensures Archive.DistinctBases(Archive.PathsOf(volumes[k]))
  {
    hide Total, Flatten, Admissible;
    VolumeAt(volumes, k);
    var paths, all := Archive.PathsOf(volumes[k]), Archive.PathsOf(files);
    var from := Reach(volumes, k);
    forall i, j | 0 <= i < j < |paths| ensures Base(paths[i]) != Base(paths[j]) {
      assert volumes[k][i] == files[from..Reach(volumes, k + 1)][i] == files[from + i];
      assert volumes[k][j] == files[from..Reach(volumes, k + 1)][j] == files[from + j];
      assert paths[i] == all[from + i] && paths[j] == all[from + j];
    }
  }

  /** Main result: for every set name, every interleaving of its workers, every failure and
      every split, no volume of either archive has a repeated member name, and no archive
      path is one of the files archived. */
  lemma SetAlwaysArchivable(s0: F.State, acts: seq<F.Act>, dir: Path, setID: string, kind: Kind,
                            stats: seq<Stat>, volumes: seq<seq<File>>)
    requires F.Init(s0) && F.Schedule(s0, acts) && F.Joined(F.After(s0, acts)) && Clean(dir)
    requires var s := F.After(s0, acts);
      var flist := PathsOf(dir, setID, if kind == Originals then s.originals else s.converted);
      |stats| == |flist| && GreedySplit(volumes, Statable(flist, stats))
    ensures forall k | 0 <= k < |volumes| :: Archive.DistinctBases(Archive.PathsOf(volumes[k]))
    ensures var s := F.After(s0, acts);
      var flist := PathsOf(dir, setID, if kind == Originals then s.originals else s.converted);
      ArchivePath(dir, setID, kind) != [] && Archive.TargetsApart(ArchivePath(dir, setID, kind), flist)
  {
    hide GreedySplit, F.Joined;
    F.JoinResult(s0, acts);
    var s := F.After(s0, acts);
    var entries := if kind == Originals then s.originals else s.converted;
    EntriesDistinct(dir, setID, entries);
    EntriesApart(dir, setID, entries, kind);
    StatableDistinct(PathsOf(dir, setID, entries), stats);
    forall k | 0 <= k < |volumes| ensures Archive.DistinctBases(Archive.PathsOf(volumes[k])) {
      VolumeDistinct(volumes, Statable(PathsOf(dir, setID, entries), stats), k);
    }
  }

  type Disk = map<Path, Archive.Body>

  /** One of the two archiving calls: what it was given, how it split it, and what it returned. */
  datatype Call = Call(
    kind: Kind, flist: seq<Path>, stats: seq<Stat>, faults: nat -> Archive.Faults,
    volumes: seq<seq<File>>, zips: seq<Path>, outcome: Archive.Outcome)

  /** The volumes are what the splitter makes of the list, free of repeated names and apart from
      every target. */
  ghost predicate Prepared(dir: Path, setID: string, c: Call)
    requires Clean(dir) && |c.stats| == |c.flist|
  {
    && GreedySplit(c.volumes, Statable(c.flist, c.stats))
    && ArchivePath(dir, setID, c.kind) != [] && Archive.Within(ArchivePath(dir, setID, c.kind), c.flist, c.volumes)
    && forall k | 0 <= k < |c.volumes| :: Archive.DistinctBases(Archive.PathsOf(c.volumes[k]))
  }

  /** What a call promises about the disk before the set was archived and the disk afterwards. */
  ghost predicate Kept(before: Disk, after: Disk, dir: Path, setID: string, c: Call)
    requires Clean(dir)
  {
    && c.outcome != Archive.Failed(Archive.Duplicate)
    && (c.outcome.Done? <==>
          forall k | 0 <= k < |c.volumes| :: Archive.Succeeds(before, Archive.PathsOf(c.volumes[k]), c.faults(k)))
    && |c.zips| <= |c.volumes| && (c.outcome.Done? ==> |c.zips| == |c.volumes|)
    && ArchivePath(dir, setID, c.kind) != []
    && forall k | 0 <= k < |c.zips| ::
      c.zips[k] == VolumePath(ArchivePath(dir, setID, c.kind), |c.volumes|, k)
      && Archive.Complete(before, after, c.zips[k], Archive.PathsOf(c.volumes[k]))
  }

  lemma CallKept(before: Disk, after: Disk, dir: Path, setID: string, c: Call)
    requires Clean(dir) && |c.stats| == |c.flist| && Prepared(dir, setID, c)
    requires Archive.Ran(before, after, ArchivePath(dir, setID, c.kind), c.volumes, c.faults, c.zips, c.outcome)
    ensures Kept(before, after, dir, setID, c)
  {
    hide Archive.Succeeds, Archive.DistinctBases, Archive.Complete, Archive.Within;
    hide GreedySplit, VolumePath, ArchivePath;
    var f := ArchivePath(dir, setID, c.kind);
    Archive.OutcomeOf(before, after, f, c.flist, c.volumes, c.faults, c.zips, c.outcome);
    forall k | 0 <= k < |c.zips|
      ensures k < |c.volumes| && c.zips[k] == VolumePath(f, |c.volumes|, k)
      ensures Archive.Complete(before, after, c.zips[k], Archive.PathsOf(c.volumes[k]))
    {
      Archive.ReturnedComplete(before, after, f, c.volumes, c.faults, c.zips, c.outcome, k);
    }
    RanLengths(before, after, f, c);
  }

  lemma RanLengths(before: Disk, after: Disk, f: Path, c: Call)
    requires f != [] && Archive.Ran(before, after, f, c.volumes, c.faults, c.zips, c.outcome)
    ensures |c.zips| <= |c.volumes| && (c.outcome.Done? ==> |c.zips| == |c.volumes|)
  {
    hide Archive.Succeeds, Archive.Complete, VolumePath, Archive.Same;
  }

  /** An earlier disk with the same inputs is as good a starting point. */
  lemma {:induction false} KeptFromEarlier(start: Disk, before: Disk, after: Disk, dir: Path, setID: string, c: Call)
    requires Clean(dir) && |c.stats| == |c.flist| && Prepared(dir, setID, c) && Kept(before, after, dir, setID, c)
    requires forall p <- c.flist :: Archive.Same(start, before, p)
    ensures Kept(start, after, dir, setID, c)
  {
    hide Archive.Succeeds, Archive.DistinctBases, GreedySplit, VolumePath, ArchivePath, Archive.Members, Archive.Same;
    forall k | 0 <= k < |c.volumes|
      ensures Archive.Succeeds(start, Archive.PathsOf(c.volumes[k]), c.faults(k))
          <==> Archive.Succeeds(before, Archive.PathsOf(c.volumes[k]), c.faults(k))
      ensures k < |c.zips| ==> Archive.Complete(start, after, c.zips[k], Archive.PathsOf(c.volumes[k]))
    {
      var inputs := Archive.PathsOf(c.volumes[k]);
      assert forall p <- inputs :: p in c.flist;
      Archive.SameInputs(start, before, inputs, c.faults(k));
      if k < |c.zips| { CompleteFromEarlier(start, before, after, c.zips[k], inputs); }
    }
  }

  lemma CompleteFromEarlier(start: Disk, before: Disk, after: Disk, p: Path, inputs: seq<Path>)
    requires Archive.Complete(before, after, p, inputs) && forall q <- inputs :: Archive.Same(start, before, q)
    ensures Archive.Complete(start, after, p, inputs)
  {
    forall q <- inputs ensures q in start {
      assert Archive.Same(start, before, q);
    }
    assert Archive.Members(start, inputs) == Archive.Members(before, inputs) by {
      forall i | 0 <= i < |inputs| ensures start[inputs[i]] == before[inputs[i]] {
        assert Archive.Same(start, before, inputs[i]);
      }
    }
  }

  /** A later disk that still has the archives is as good an end. */
  lemma KeptUntilLater(before: Disk, after: Disk, end: Disk, dir: Path, setID: string, c: Call)
    requires Clean(dir) && Kept(before, after, dir, setID, c)
    requires forall z <- c.zips :: Archive.Same(after, end, z)
    ensures Kept(before, end, dir, setID, c)
  {
    hide Archive.Succeeds, VolumePath, ArchivePath, Archive.Members;
    forall k | 0 <= k < |c.zips| ensures Archive.Complete(before, end, c.zips[k], Archive.PathsOf(c.volumes[k])) {
      assert Archive.Same(after, end, c.zips[k]);
    }
  }

  /** What the splitter makes of an aligned list is prepared. */
  lemma ListPrepared(dir: Path, setID: string, entries: seq<F.Entry>, c: Call)
    requires Clean(dir) && forall j, k | 0 <= j < k < |entries| :: entries[j].idx != entries[k].idx
    requires c.flist == PathsOf(dir, setID, entries) && |c.stats| == |c.flist|
    requires GreedySplit(c.volumes, Statable(c.flist, c.stats))
    ensures Prepared(dir, setID, c)
  {
    hide GreedySplit, Archive.DistinctBases, ArchivePath, Archive.TargetsApart, PathsOf;
    EntriesDistinct(dir, setID, entries);
    EntriesApart(dir, setID, entries, c.kind);
    StatableDistinct(c.flist, c.stats);
    Archive.VolumesWithin(c.flist, c.stats, c.volumes);
    forall k | 0 <= k < |c.volumes| ensures Archive.DistinctBases(Archive.PathsOf(c.volumes[k])) {
      VolumeDistinct(c.volumes, Statable(c.flist, c.stats), k);
    }
  }

  /** The files of the set are none of the targets of either call. */
  lemma FilesKept(before: Disk, after: Disk, dir: Path, setID: string, c: Call, entries: seq<F.Entry>)
    requires Clean(dir) && ArchivePath(dir, setID, c.kind) != []
    requires Archive.Ran(before, after, ArchivePath(dir, setID, c.kind), c.volumes, c.faults, c.zips, c.outcome)
    ensures forall p <- PathsOf(dir, setID, entries) :: Archive.Same(before, after, p)
  {
    hide Archive.Ran, ArchivePath, VolumePath, PathsOf, Archive.Same;
    EntriesApart(dir, setID, entries, c.kind);
    var f := ArchivePath(dir, setID, c.kind);
    forall p <- PathsOf(dir, setID, entries) ensures Archive.Same(before, after, p) {
      Archive.OthersKept(before, after, f, c.volumes, c.faults, c.zips, c.outcome, p);
    }
  }

  /** The archives of the originals are none of the targets of the second call. */
  lemma ArchivesKept(before: Disk, after: Disk, dir: Path, setID: string, first: Call, second: Call)
    requires Clean(dir) && first.kind == Originals && second.kind == Converted
    requires ArchivePath(dir, setID, Originals) != [] && ArchivePath(dir, setID, Converted) != []
    requires forall k | 0 <= k < |first.zips| ::
      first.zips[k] == VolumePath(ArchivePath(dir, setID, Originals), |first.volumes|, k)
    requires Archive.Ran(before, after, ArchivePath(dir, setID, Converted), second.volumes, second.faults,
                         second.zips, second.outcome)
    ensures forall z <- first.zips :: Archive.Same(before, after, z)
  {
    hide Archive.Ran, ArchivePath, VolumePath, Archive.Same;
    forall j | 0 <= j < |first.zips| ensures Archive.Same(before, after, first.zips[j]) {
      forall k | 0 <= k < |second.volumes|
        ensures VolumePath(ArchivePath(dir, setID, Converted), |second.volumes|, k) != first.zips[j]
      {
        ArchivesDiffer(dir, setID, |first.volumes|, j, |second.volumes|, k);
      }
      Archive.OthersKept(before, after, ArchivePath(dir, setID, Converted), second.volumes, second.faults,
                         second.zips, second.outcome, first.zips[j]);
    }
  }

  /** A call that succeeded archived exactly the stat-able files of its list, in order. */
  lemma KeptContents(before: Disk, after: Disk, dir: Path, setID: string, c: Call)
    requires Clean(dir) && |c.stats| == |c.flist| && Prepared(dir, setID, c) && Kept(before, after, dir, setID, c)
    requires c.outcome.Done?
    ensures Archived(before, after, c)
  {
    hide Archive.Succeeds, Archive.DistinctBases, VolumePath, ArchivePath, Archive.Within, Archive.Members;
    Archive.ContentsAre(before, after, c.volumes, c.zips);
  }

  ghost predicate Archived(before: Disk, after: Disk, c: Call)
    requires |c.stats| == |c.flist|
  {
    && (forall z <- c.zips :: z in after && after[z].Zip?)
    && Archive.Readable(before, Archive.PathsOf(Statable(c.flist, c.stats)))
    && Archive.Contents(after, c.zips) == Archive.Members(before, Archive.PathsOf(Statable(c.flist, c.stats)))
  }

  /** Every archive returned holds the files of its volume under their last components, as they were. */
  ghost predicate HoldsFiles(before: Disk, after: Disk, c: Call) {
    forall k | 0 <= k < |c.zips| ::
      && k < |c.volumes| && c.zips[k] in after && after[c.zips[k]].Zip?
      && Archive.Holds(after[c.zips[k]].members, before, c.zips[k], Archive.PathsOf(c.volumes[k]))
  }

  lemma KeptHolds(before: Disk, after: Disk, dir: Path, setID: string, c: Call)
    requires Clean(dir) && |c.stats| == |c.flist| && Prepared(dir, setID, c) && Kept(before, after, dir, setID, c)
    ensures HoldsFiles(before, after, c)
  {
    hide Archive.Succeeds, Archive.DistinctBases, GreedySplit, VolumePath, ArchivePath, Archive.Within;
    hide Archive.Holds, Archive.Complete;
    forall k | 0 <= k < |c.zips|
      ensures k < |c.volumes| && c.zips[k] in after && after[c.zips[k]].Zip?
      ensures Archive.Holds(after[c.zips[k]].members, before, c.zips[k], Archive.PathsOf(c.volumes[k]))
    {
      CompleteIsThere(before, after, c.zips[k], Archive.PathsOf(c.volumes[k]));
      Archive.CompleteHolds(before, after, c.zips[k], Archive.PathsOf(c.volumes[k]));
    }
  }

  lemma CompleteIsThere(before: Disk, after: Disk, p: Path, inputs: seq<Path>)
    requires Archive.Complete(before, after, p, inputs)
    ensures p in after && after[p].Zip?
  {}

  /** Both calls, seen from before the first to after the second. */
  ghost predicate SetArchived(before: Disk, after: Disk, dir: Path, setID: string, first: Call, second: Call)
    requires Clean(dir) && |first.stats| == |first.flist| && |second.stats| == |second.flist|
  {
    && Kept(before, after, dir, setID, first) && Kept(before, after, dir, setID, second)
    && (first.outcome.Done? ==> Archived(before, after, first))
    && (second.outcome.Done? ==> Archived(before, after, second))
    && HoldsFiles(before, after, first) && HoldsFiles(before, after, second)
    && forall p <- first.flist + second.flist :: Archive.Same(before, after, p)
  }

  lemma {:induction false} BothCalls(before: Disk, mid: Disk, after: Disk, dir: Path, setID: string,
                  originals: seq<F.Entry>, converted: seq<F.Entry>, first: Call, second: Call)
    requires Clean(dir) && first.kind == Originals && second.kind == Converted
    requires first.flist == PathsOf(dir, setID, originals) && second.flist == PathsOf(dir, setID, converted)
    requires |first.stats| == |first.flist| && |second.stats| == |second.flist|
    requires forall j, k | 0 <= j < k < |originals| :: originals[j].idx != originals[k].idx
    requires forall j, k | 0 <= j < k < |converted| :: converted[j].idx != converted[k].idx
    requires GreedySplit(first.volumes, Statable(first.flist, first.stats))
    requires GreedySplit(second.volumes, Statable(second.flist, second.stats))
    requires ArchivePath(dir, setID, Originals) != [] && ArchivePath(dir, setID, Converted) != []
    requires Archive.Ran(before, mid, ArchivePath(dir, setID, Originals), first.volumes, first.faults,
                         first.zips, first.outcome)
    requires Archive.Ran(mid, after, ArchivePath(dir, setID, Converted), second.volumes, second.faults,
                         second.zips, second.outcome)
    ensures SetArchived(before, after, dir, setID, first, second)
  {
    hide GreedySplit, Prepared, Archived, HoldsFiles, Archive.Ran, ArchivePath, PathsOf, Statable, VolumePath;
    hide Archive.Complete, Archive.Succeeds;
    ListPrepared(dir, setID, originals, first);
    ListPrepared(dir, setID, converted, second);
    CallKept(before, mid, dir, setID, first);
    CallKept(mid, after, dir, setID, second);
    FilesKept(before, mid, dir, setID, first, originals);
    FilesKept(before, mid, dir, setID, first, converted);
    FilesKept(mid, after, dir, setID, second, originals);
    FilesKept(mid, after, dir, setID, second, converted);
    ArchivesKept(mid, after, dir, setID, first, second);
    KeptUntilLater(before, mid, after, dir, setID, first);
    KeptFromEarlier(before, mid, after, dir, setID, second);
    KeptHolds(before, after, dir, setID, first);
    KeptHolds(before, after, dir, setID, second);
    if first.outcome.Done? { KeptContents(before, after, dir, setID, first); }
    if second.outcome.Done? { KeptContents(before, after, dir, setID, second); }
  }

  /** From the joined workers to the disk: the originals are archived, then the converted files.
      Whatever fails, no volume is refused for a repeated name, the first call's archives survive
      the second, and no file of the set is touched; a call that succeeds has archived all of its
      stat-able files, and it succeeds unless some volume meets a fault. */
  method ArchiveSet(store: Archive.Store, dir: Path, setID: string, s: F.State,
                    stats: Kind -> seq<Stat>, faults: Kind -> nat -> Archive.Faults,
                    ghost s0: F.State, ghost acts: seq<F.Act>)
    returns (zipPaths: seq<Path>, ghost first: Call, ghost second: Call)
    requires Clean(dir) && F.Init(s0) && F.Schedule(s0, acts) && s == F.After(s0, acts) && F.Joined(s)
    requires |stats(Originals)| == |s.originals| && |stats(Converted)| == |s.converted|
    modifies store
    ensures first == Call(Originals, PathsOf(dir, setID, s.originals), stats(Originals), faults(Originals),
                          first.volumes, first.zips, first.outcome)
    ensures second == Call(Converted, PathsOf(dir, setID, s.converted), stats(Converted), faults(Converted),
                           second.volumes, second.zips, second.outcome)
    ensures GreedySplit(first.volumes, Statable(first.flist, first.stats))
    ensures GreedySplit(second.volumes, Statable(second.flist, second.stats))
    ensures SetArchived(old(store.files), store.files, dir, setID, first, second)
    ensures zipPaths == (if first.outcome.Done? then first.zips else [])
                        + (if second.outcome.Done? then second.zips else [])
  {
    hide GreedySplit, SetArchived, Archive.Chain, Archive.Ran, Archive.TargetsApart, ArchivePath, PathsOf, Statable;
    hide F.Init, F.Schedule, F.After, F.Joined;
    JoinAligned(s0, acts);
    var origZip, convZip := ArchivePath(dir, setID, Originals), ArchivePath(dir, setID, Converted);
    var originalFiles, convertedFiles := PathsOf(dir, setID, s.originals), PathsOf(dir, setID, s.converted);
    EntriesApart(dir, setID, s.originals, Originals);
    EntriesApart(dir, setID, s.converted, Converted);
    zipPaths := [];
    ghost var before := store.files;
    var zips, outcome;
    ghost var volumes;
    ghost var disks;
    zips, outcome, volumes, disks := store.FCompressVol(origZip, originalFiles, stats(Originals), faults(Originals));
    CallRan(before, store.files, dir, setID, Originals, s.originals, stats(Originals), volumes, faults(Originals),
            disks, zips, outcome);
    if outcome.Done? {
      zipPaths := zipPaths + zips;
    }
    first := Call(Originals, originalFiles, stats(Originals), faults(Originals), volumes, zips, outcome);
    ghost var mid := store.files;
    zips, outcome, volumes, disks := store.FCompressVol(convZip, convertedFiles, stats(Converted), faults(Converted));
    CallRan(mid, store.files, dir, setID, Converted, s.converted, stats(Converted), volumes, faults(Converted),
            disks, zips, outcome);
    if outcome.Done? {
      zipPaths := zipPaths + zips;
    }
    second := Call(Converted, convertedFiles, stats(Converted), faults(Converted), volumes, zips, outcome);
    BothCalls(before, mid, store.files, dir, setID, s.originals, s.converted, first, second);
  }

  lemma CallRan(before: Disk, after: Disk, dir: Path, setID: string, kind: Kind, entries: seq<F.Entry>,
                stats: seq<Stat>, volumes: seq<seq<File>>, faults: nat -> Archive.Faults, disks: seq<Disk>,
                zips: seq<Path>, outcome: Archive.Outcome)
    requires Clean(dir) && ArchivePath(dir, setID, kind) != [] && |stats| == |PathsOf(dir, setID, entries)|
    requires GreedySplit(volumes, Statable(PathsOf(dir, setID, entries), stats))
    requires Archive.Chain(before, after, ArchivePath(dir, setID, kind), volumes, faults, disks, zips, outcome)
    ensures Archive.Ran(before, after, ArchivePath(dir, setID, kind), volumes, faults, zips, outcome)
  {
    hide GreedySplit, Archive.Chain, Archive.Ran, Archive.TargetsApart, ArchivePath, PathsOf;
    EntriesApart(dir, setID, entries, kind);
    Archive.VolumesWithin(PathsOf(dir, setID, entries), stats, volumes);
    Archive.ChainRan(before, after, ArchivePath(dir, setID, kind), PathsOf(dir, setID, entries), volumes, faults,
                     disks, zips, outcome);
  }

  lemma JoinAligned(s0: F.State, acts: seq<F.Act>)
    requires F.Init(s0) && F.Schedule(s0, acts) && F.Joined(F.After(s0, acts))
    ensures var s := F.After(s0, acts);
      && (forall j, k | 0 <= j < k < |s.originals| :: s.originals[j].idx != s.originals[k].idx)
      && (forall j, k | 0 <= j < k < |s.converted| :: s.converted[j].idx != s.converted[k].idx)
  {
    F.JoinResult(s0, acts);
  }
}
