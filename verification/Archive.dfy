/** FCompress and FCompressVol (internal/sticker/util.go): a ZIP archive is written whole
    or not at all, and a failing volume leaves the earlier ones in place. */
module Archive {
  import opened Paths
  import opened Naming
  import opened Volumes

  /** A file on disk: bytes, a finished archive, or an archive that lacks something. */
  datatype Body = Raw(data: string) | Zip(members: seq<Member>) | Torn

  datatype Member = Member(name: string, body: Body)

  /** What can go wrong with one input file. */
  datatype InputFault = Fine | OpenFails | WriteFails | CloseFails

  /** What goes wrong in one call; the answers of the file system. */
  datatype Faults = Faults(
    createFails: bool, inputs: nat -> InputFault, finalizeFails: bool, closeFails: bool, removeFails: bool)

  datatype Error = Duplicate | Create | Open | Write | Close | Finalize | CloseArchive

  datatype Outcome = Done | Failed(error: Error)

  predicate DistinctBases(flist: seq<Path>) {
    forall i, j | 0 <= i < j < |flist| :: Base(flist[i]) != Base(flist[j])
  }

  predicate InputsRead(files: map<Path, Body>, flist: seq<Path>, inputs: nat -> InputFault) {
    forall i | 0 <= i < |flist| :: flist[i] in files && inputs(i) == Fine
  }

  /** The members an archive of `flist` must have, in order. */
  function Members(files: map<Path, Body>, flist: seq<Path>): seq<Member>
    requires forall p <- flist :: p in files
  {
    seq(|flist|, i requires 0 <= i < |flist| => Member(Base(flist[i]), files[flist[i]]))
  }

  /** A call meets no fault at all. */
  predicate Succeeds(files: map<Path, Body>, flist: seq<Path>, faults: Faults) {
    && DistinctBases(flist) && !faults.createFails
    && InputsRead(files, flist, faults.inputs)
    && !faults.finalizeFails && !faults.closeFails
  }

  /** What an archive of `flist` holds: for each input a member under the last component of its path,
      with the contents the disk had before, and no name twice. */
  predicate Holds(members: seq<Member>, before: map<Path, Body>, f: Path, flist: seq<Path>) {
    && |members| == |flist|
    && (forall i | 0 <= i < |flist| && flist[i] != [] :: members[i].name == flist[i][|flist[i]| - 1])
    && (forall i | 0 <= i < |flist| && flist[i] != f ::
          flist[i] in before && members[i].body == before[flist[i]])
    && (forall i, j | 0 <= i < j < |flist| :: members[i].name != members[j].name)
  }

  /** Nothing goes wrong: the last components differ, every input is there and is opened, copied and
      closed, and the archive is created, finished and closed. */
  predicate NothingFails(before: map<Path, Body>, f: Path, flist: seq<Path>, faults: Faults) {
    && (forall i, j | 0 <= i < j < |flist| && flist[i] != [] && flist[j] != [] ::
          flist[i][|flist[i]| - 1] != flist[j][|flist[j]| - 1])
    && (forall i | 0 <= i < |flist| :: (flist[i] in before || flist[i] == f) && faults.inputs(i) == Fine)
    && !faults.createFails && !faults.finalizeFails && !faults.closeFails
  }

  lemma DistinctMeans(flist: seq<Path>)
    requires [] !in flist
    ensures DistinctBases(flist) <==>
      forall i, j | 0 <= i < j < |flist| && flist[i] != [] && flist[j] != [] ::
        flist[i][|flist[i]| - 1] != flist[j][|flist[j]| - 1]
  {
    assert forall i | 0 <= i < |flist| :: flist[i] != [] && Base(flist[i]) == flist[i][|flist[i]| - 1];
    forall i, j | DistinctBases(flist) && 0 <= i < j < |flist|
      ensures flist[i] != [] && flist[j] != [] && flist[i][|flist[i]| - 1] != flist[j][|flist[j]| - 1]
    {
      assert Base(flist[i]) != Base(flist[j]);
    }
  }

  lemma SucceedsMeans(before: map<Path, Body>, f: Path, flist: seq<Path>, faults: Faults)
    ensures [] !in flist ==>
      (Succeeds(before[f := Torn], flist, faults) <==> NothingFails(before, f, flist, faults))
    ensures Succeeds(before[f := Torn], flist, faults) ==>
      (forall p <- flist :: p in before[f := Torn]) && Holds(Members(before[f := Torn], flist), before, f, flist)
  {
    hide DistinctBases;
    if [] !in flist { DistinctMeans(flist); }
    if Succeeds(before[f := Torn], flist, faults) { MembersHold(before, f, flist); }
  }

  lemma MembersHold(before: map<Path, Body>, f: Path, flist: seq<Path>)
    requires DistinctBases(flist) && forall i | 0 <= i < |flist| :: flist[i] in before[f := Torn]
    ensures (forall p <- flist :: p in before[f := Torn]) && Holds(Members(before[f := Torn], flist), before, f, flist)
  {}

  /** The first input that cannot be copied, and how it shows. */
  predicate StopsAt(files: map<Path, Body>, flist: seq<Path>, inputs: nat -> InputFault, i: nat, error: Error) {
    && i < |flist| && (forall j | 0 <= j < i :: flist[j] in files && inputs(j) == Fine)
    && (if flist[i] !in files || inputs(i) == OpenFails then error == Open
        else (inputs(i) == WriteFails && error == Write) || (inputs(i) == CloseFails && error == Close))
  }

  ghost predicate StopsSomewhere(files: map<Path, Body>, flist: seq<Path>, inputs: nat -> InputFault, error: Error) {
    exists i: nat :: StopsAt(files, flist, inputs, i, error)
  }

  /** An archive that is not among its inputs is made of the inputs as they were. */
  lemma TargetAside(files: map<Path, Body>, f: Path, flist: seq<Path>, faults: Faults)
    requires f !in flist
    ensures Succeeds(files[f := Torn], flist, faults) <==> Succeeds(files, flist, faults)
    ensures Succeeds(files, flist, faults) ==> forall p <- flist :: p in files
    ensures Succeeds(files, flist, faults) ==> Members(files[f := Torn], flist) == Members(files, flist)
  {}

  lemma Overwritten(files: map<Path, Body>, f: Path, body: Body)
    ensures files[f := Torn][f := body] == files[f := body] && files[f := Torn][f := Torn] == files[f := Torn]
    ensures files[f := body][f := Torn] == files[f := Torn] && files[f := body] - {f} == files - {f}
    ensures files[f := Torn] - {f} == files - {f}
  {}

  lemma StopErrors(files: map<Path, Body>, flist: seq<Path>, inputs: nat -> InputFault)
    ensures forall error | StopsSomewhere(files, flist, inputs, error) :: error in {Open, Write, Close}
  {}

  class Store {
    var files: map<Path, Body>

    constructor (files: map<Path, Body>)
      ensures this.files == files
    {
      this.files := files;
    }

    /** Writes the members one by one; stops at the first file that cannot be copied. */
    method WriteMembers(flist: seq<Path>, inputs: nat -> InputFault) returns (members: seq<Member>, outcome: Outcome)
      ensures outcome.Done? <==> InputsRead(files, flist, inputs)
      ensures outcome.Done? ==> members == Members(files, flist)
      ensures outcome.Failed? ==> StopsSomewhere(files, flist, inputs, outcome.error)
    {
      members, outcome := [], Done;
      for i := 0 to |flist|
        invariant |members| == i
        invariant forall k | 0 <= k < i :: flist[k] in files && inputs(k) == Fine
        invariant forall k | 0 <= k < i :: members[k] == Member(Base(flist[k]), files[flist[k]])
      {
        var file := flist[i];
        if file !in files || inputs(i) == OpenFails {
          assert StopsAt(files, flist, inputs, i, Open);
          return members, Failed(Open);
        }
        if inputs(i) == WriteFails {
          assert StopsAt(files, flist, inputs, i, Write);
          return members, Failed(Write);
        }
        members := members + [Member(Base(file), files[file])];
        if inputs(i) == CloseFails {
          assert StopsAt(files, flist, inputs, i, Close);
          return members, Failed(Close);
        }
      }
    }

    /** The name check at the top of FCompress. */
    method HasDuplicate(flist: seq<Path>) returns (found: bool)
      ensures found <==> !DistinctBases(flist)
    {
      var names: set<string> := {};
      for i := 0 to |flist|
        invariant forall j, k | 0 <= j < k < i :: Base(flist[j]) != Base(flist[k])
        invariant forall n :: n in names <==> exists j | 0 <= j < i :: Base(flist[j]) == n
      {
        var name := Base(flist[i]);
        if name in names {
          return true;
        }
        names := names + {name};
      }
      return false;
    }

    /** Creating the archive empties its path first, so an input at that path is read as what is
        there by then. */
    method FCompress(f: Path, flist: seq<Path>, faults: Faults) returns (outcome: Outcome)
      modifies this
      ensures outcome.Done? <==> Succeeds(old(files)[f := Torn], flist, faults)
      ensures outcome.Done? ==> files == old(files)[f := Zip(Members(old(files)[f := Torn], flist))]
      ensures outcome == Failed(Duplicate) <==> !DistinctBases(flist)
      ensures outcome == Failed(Create) <==> DistinctBases(flist) && faults.createFails
      ensures outcome in {Failed(Duplicate), Failed(Create)} ==> files == old(files)
      ensures outcome.Failed? && outcome.error !in {Duplicate, Create} ==>
        files == if faults.removeFails then old(files)[f := Torn] else old(files) - {f}
      ensures outcome.Done? ==> f in files && files[f].Zip? && Holds(files[f].members, old(files), f, flist)
      ensures [] !in flist ==> (outcome.Done? <==> NothingFails(old(files), f, flist, faults))
      ensures outcome in {Failed(Open), Failed(Write), Failed(Close)} ==>
        StopsSomewhere(old(files)[f := Torn], flist, faults.inputs, outcome.error)
      ensures outcome == Failed(Finalize) ==>
        InputsRead(old(files)[f := Torn], flist, faults.inputs) && faults.finalizeFails
      ensures outcome == Failed(CloseArchive) ==>
        InputsRead(old(files)[f := Torn], flist, faults.inputs) && !faults.finalizeFails && faults.closeFails
    {
      hide DistinctBases, InputsRead, Members, Holds, NothingFails, StopsSomewhere;
      SucceedsMeans(files, f, flist, faults);
      var found := HasDuplicate(flist);
      if found {
        return Failed(Duplicate);
      }
      if faults.createFails {
        return Failed(Create);
      }
      files := files[f := Torn];
      var members;
      members, outcome := WriteMembers(flist, faults.inputs);
      StopErrors(files, flist, faults.inputs);
      // First deferred call: finish the archive.
      if !faults.finalizeFails && outcome.Done? {
        files := files[f := Zip(members)];
      } else if outcome.Done? {
        outcome := Failed(Finalize);
      }
      // Second deferred call: close the file, and remove it after any error.
      if faults.closeFails && outcome.Done? {
        outcome := Failed(CloseArchive);
        files := files[f := Torn];
      }
      if outcome.Failed? && !faults.removeFails {
        files := files - {f};
      }
      Overwritten(old(files), f, Zip(members));
    }

    /** Splits the files and archives the volumes in order, stopping at the first error. `disks` are
        the states of the disk between the archives. */
    method FCompressVol(f: Path, flist: seq<Path>, stats: seq<Stat>, faults: nat -> Faults)
      returns (zipPaths: seq<Path>, outcome: Outcome, ghost volumes: seq<seq<File>>, ghost disks: seq<map<Path, Body>>)
      requires f != [] && |stats| == |flist|
      modifies this
      ensures GreedySplit(volumes, Statable(flist, stats))
      ensures Chain(old(files), files, f, volumes, faults, disks, zipPaths, outcome)
    {
      hide GreedySplit, Succeeds, Members, VolumePath;
      var split := SplitVolumes(flist, stats);
      volumes := split;
      zipPaths, outcome, disks := [], Done, [files];
      for i := 0 to |split|
        invariant |zipPaths| == i && outcome.Done? && |disks| == i + 1
        invariant disks[0] == old(files) && disks[i] == files
        invariant forall k | 0 <= k < i :: zipPaths[k] == VolumePath(f, |split|, k)
        invariant forall k | 0 < k <= i :: Written(disks, f, split, faults, k)
      {
        var zipPath := VolumePath(f, |split|, i);
        outcome := FCompress(zipPath, PathsOf(split[i]), faults(i));
        if outcome.Failed? {
          return;
        }
        zipPaths := zipPaths + [zipPath];
        ghost var longer := disks + [files];
        assert forall k | 0 < k <= i :: Written(disks, f, split, faults, k) ==> Written(longer, f, split, faults, k);
        assert Written(longer, f, split, faults, i + 1);
        disks := longer;
      }
    }
  }

  /** Archive `k` was written: on the disk as the one before left it, with its own path emptied first. */
  ghost predicate Written(disks: seq<map<Path, Body>>, f: Path, volumes: seq<seq<File>>, faults: nat -> Faults, k: nat)
    requires f != []
  {
    && 0 < k < |disks| && k <= |volumes|
    && var target, inputs := VolumePath(f, |volumes|, k - 1), PathsOf(volumes[k - 1]);
       var emptied := disks[k - 1][target := Torn];
       && Succeeds(emptied, inputs, faults(k - 1))
       && disks[k] == disks[k - 1][target := Zip(Members(emptied, inputs))]
  }

  /** An archive was not written, for the reason given, and what that leaves. */
  ghost predicate Refused(before: map<Path, Body>, after: map<Path, Body>, target: Path, inputs: seq<Path>,
                          faults: Faults, error: Error)
  {
    && !Succeeds(before[target := Torn], inputs, faults)
    && (error == Duplicate <==> !DistinctBases(inputs))
    && (error == Create <==> DistinctBases(inputs) && faults.createFails)
    && after == if error in {Duplicate, Create} then before
                else if faults.removeFails then before[target := Torn]
                else before - {target}
  }

  /** The call as the sequence of its archives: all of them, or those before the first refused one. */
  ghost predicate Chain(before: map<Path, Body>, after: map<Path, Body>, f: Path, volumes: seq<seq<File>>,
                        faults: nat -> Faults, disks: seq<map<Path, Body>>, zipPaths: seq<Path>, outcome: Outcome)
    requires f != []
  {
    && |disks| == |zipPaths| + 1 && |zipPaths| <= |volumes| && disks[0] == before
    && (forall k | 0 <= k < |zipPaths| :: zipPaths[k] == VolumePath(f, |volumes|, k))
    && (forall k | 0 < k <= |zipPaths| :: Written(disks, f, volumes, faults, k))
    && var n := |zipPaths|;
       match outcome
       case Done => n == |volumes| && after == disks[n]
       case Failed(error) =>
         n < |volumes| && Refused(disks[n], after, VolumePath(f, |volumes|, n), PathsOf(volumes[n]), faults(n), error)
  }

  function PathsOf(volume: seq<File>): (paths: seq<Path>)
    ensures |paths| == |volume|
  {
    seq(|volume|, i requires 0 <= i < |volume| => volume[i].path)
  }

  /** No volume of `f`, whatever the split, is one of the files to archive. */
  ghost predicate TargetsApart(f: Path, flist: seq<Path>)
    requires f != []
  {
    forall n, k :: VolumePath(f, n, k) !in flist
  }

  /** `p` holds the finished archive of `inputs` as they were. */
  predicate Complete(before: map<Path, Body>, after: map<Path, Body>, p: Path, inputs: seq<Path>) {
    && p in after && (forall q <- inputs :: q in before)
    && after[p] == Zip(Members(before, inputs))
  }

  predicate Same(before: map<Path, Body>, after: map<Path, Body>, p: Path) {
    (p in before <==> p in after) && (p in before ==> before[p] == after[p])
  }

  /** What a failed call leaves at its target: nothing, unless it never got there or could not clean up. */
  predicate AfterFailure(before: map<Path, Body>, after: map<Path, Body>, target: Path, error: Error,
                         removeFails: bool)
  {
    if error in {Duplicate, Create} then Same(before, after, target)
    else if removeFails then target in after && after[target] == Torn
    else target !in after
  }

  /** The first volumes are finished archives of what the disk held, and nothing else changed. */
  ghost predicate Archived(before: map<Path, Body>, after: map<Path, Body>, f: Path, volumes: seq<seq<File>>,
                     faults: nat -> Faults, zipPaths: seq<Path>)
    requires f != []
  {
    && |zipPaths| <= |volumes|
    && (forall k | 0 <= k < |zipPaths| ::
      zipPaths[k] == VolumePath(f, |volumes|, k) && Complete(before, after, zipPaths[k], PathsOf(volumes[k]))
      && Succeeds(before, PathsOf(volumes[k]), faults(k)))
    && (forall p | p !in zipPaths :: Same(before, after, p))
  }

  /** The call as a whole: all volumes archived, or stopped at the first that fails. */
  ghost predicate Ran(before: map<Path, Body>, after: map<Path, Body>, f: Path, volumes: seq<seq<File>>,
                      faults: nat -> Faults, zipPaths: seq<Path>, outcome: Outcome)
    requires f != []
  {
    match outcome
    case Done => |zipPaths| == |volumes| && Archived(before, after, f, volumes, faults, zipPaths)
    case Failed(error) =>
      exists mid :: Archived(before, mid, f, volumes, faults, zipPaths)
                    && StoppedAt(mid, after, f, volumes, faults, |zipPaths|, error)
  }

  /** Volume `k` failed, for the reason given: its target is as AfterFailure says, everything
      else untouched. */
  ghost predicate StoppedAt(before: map<Path, Body>, after: map<Path, Body>, f: Path, volumes: seq<seq<File>>,
                      faults: nat -> Faults, k: nat, error: Error)
    requires f != []
  {
    && k < |volumes| && !Succeeds(before, PathsOf(volumes[k]), faults(k))
    && (error == Duplicate <==> !DistinctBases(PathsOf(volumes[k])))
    && (error == Create <==> DistinctBases(PathsOf(volumes[k])) && faults(k).createFails)
    && AfterFailure(before, after, VolumePath(f, |volumes|, k), error, faults(k).removeFails)
    && forall p | p != VolumePath(f, |volumes|, k) :: Same(before, after, p)
  }

  lemma StopsHere(before: map<Path, Body>, after: map<Path, Body>, f: Path, volumes: seq<seq<File>>,
                  faults: nat -> Faults, k: nat, error: Error)
    requires f != [] && k < |volumes| && !Succeeds(before, PathsOf(volumes[k]), faults(k))
    requires error == Duplicate <==> !DistinctBases(PathsOf(volumes[k]))
    requires error == Create <==> DistinctBases(PathsOf(volumes[k])) && faults(k).createFails
    requires var target := VolumePath(f, |volumes|, k);
      if error in {Duplicate, Create} then after == before
      else after == if faults(k).removeFails then before[target := Torn] else before - {target}
    ensures StoppedAt(before, after, f, volumes, faults, k, error)
  {
    hide Succeeds;
  }

  lemma TargetNotInput(f: Path, flist: seq<Path>, volumes: seq<seq<File>>, k: nat)
    requires f != [] && TargetsApart(f, flist) && k < |volumes|
    requires forall j | 0 <= j < |volumes| :: forall p <- PathsOf(volumes[j]) :: p in flist
    ensures VolumePath(f, |volumes|, k) !in PathsOf(volumes[k])
  {}

  lemma OneMore(before: map<Path, Body>, mid: map<Path, Body>, after: map<Path, Body>, f: Path, flist: seq<Path>,
                volumes: seq<seq<File>>, faults: nat -> Faults, zipPaths: seq<Path>)
    requires f != [] && TargetsApart(f, flist) && 0 < |zipPaths| <= |volumes|
    requires forall j | 0 <= j < |volumes| :: forall p <- PathsOf(volumes[j]) :: p in flist
    requires var k := |zipPaths| - 1; var target, inputs := VolumePath(f, |volumes|, k), PathsOf(volumes[k]);
      && Archived(before, mid, f, volumes, faults, zipPaths[..k])
      && zipPaths[k] == target && Succeeds(mid, inputs, faults(k))
      && (forall p <- inputs :: p in mid) && after == mid[target := Zip(Members(mid, inputs))]
    ensures Archived(before, after, f, volumes, faults, zipPaths)
  {
    hide Succeeds, Members, VolumePath;
    var k := |zipPaths| - 1;
    var inputs := PathsOf(volumes[k]);
    FreshTarget(f, |volumes|, k);
    InputsKept(before, mid, f, flist, volumes, faults, zipPaths[..k], inputs);
    SameInputs(before, mid, inputs, faults(k));
    assert Complete(before, after, zipPaths[k], inputs);
    forall j | 0 <= j < k
      ensures zipPaths[j] == VolumePath(f, |volumes|, j) && zipPaths[j] != zipPaths[k]
      ensures Complete(before, after, zipPaths[j], PathsOf(volumes[j]))
      ensures Succeeds(before, PathsOf(volumes[j]), faults(j))
    {
      assert zipPaths[j] == zipPaths[..k][j];
    }
    forall p | p !in zipPaths ensures Same(before, after, p) {
      assert p !in zipPaths[..k];
    }
  }

  lemma InputsKept(before: map<Path, Body>, mid: map<Path, Body>, f: Path, flist: seq<Path>, volumes: seq<seq<File>>,
                   faults: nat -> Faults, zipPaths: seq<Path>, inputs: seq<Path>)
    requires f != [] && TargetsApart(f, flist) && Archived(before, mid, f, volumes, faults, zipPaths)
    requires forall p <- inputs :: p in flist
    ensures forall p <- inputs :: Same(before, mid, p)
  {
    hide Succeeds, Complete;
    forall p <- inputs ensures Same(before, mid, p) {
      forall k | 0 <= k < |zipPaths| ensures zipPaths[k] != p {
        assert VolumePath(f, |volumes|, k) !in flist;
      }
    }
  }

  /** Files that did not change give the same archive and the same verdict. */
  lemma SameInputs(before: map<Path, Body>, after: map<Path, Body>, inputs: seq<Path>, faults: Faults)
    requires forall p <- inputs :: Same(before, after, p)
    ensures Succeeds(before, inputs, faults) <==> Succeeds(after, inputs, faults)
    ensures (forall p <- inputs :: p in before && p in after) ==> Members(before, inputs) == Members(after, inputs)
  {
    assert forall i | 0 <= i < |inputs| :: Same(before, after, inputs[i]);
  }

  lemma FreshTarget(f: Path, n: nat, i: nat)
    requires f != [] && i < n
    ensures forall k | 0 <= k < i :: VolumePath(f, n, k) != VolumePath(f, n, i)
  {
    forall k | 0 <= k < i ensures VolumePath(f, n, k) != VolumePath(f, n, i) {
      VolumeNamesDistinct(f[|f| - 1], n, k, i);
      assert VolumePath(f, n, k)[|f| - 1] != VolumePath(f, n, i)[|f| - 1];
    }
  }

  lemma {:induction false} StatableWithin(flist: seq<Path>, stats: seq<Stat>)
    requires |stats| == |flist|
    ensures forall file <- Statable(flist, stats) :: file.path in flist
  {
    if flist != [] {
      StatableWithin(flist[1..], stats[1..]);
      assert forall p <- flist[1..] :: p in flist;
    }
  }

  lemma VolumesWithin(flist: seq<Path>, stats: seq<Stat>, volumes: seq<seq<File>>)
    requires |stats| == |flist| && GreedySplit(volumes, Statable(flist, stats))
    ensures forall k | 0 <= k < |volumes| :: forall p <- PathsOf(volumes[k]) :: p in flist
  {
    StatableWithin(flist, stats);
    forall k | 0 <= k < |volumes| ensures forall p <- PathsOf(volumes[k]) :: p in flist {
      VolumeAt(volumes, k);
      forall i | 0 <= i < |volumes[k]| ensures volumes[k][i].path in flist {
        assert volumes[k][i] == Flatten(volumes)[Reach(volumes, k)..Reach(volumes, k + 1)][i];
        assert volumes[k][i] in Flatten(volumes);
      }
    }
  }

  /** All inputs of the volumes are among `flist`, and no target is. */
  ghost predicate Within(f: Path, flist: seq<Path>, volumes: seq<seq<File>>)
    requires f != []
  {
    TargetsApart(f, flist) && forall k | 0 <= k < |volumes| :: forall p <- PathsOf(volumes[k]) :: p in flist
  }

  /** What a call does to paths that are none of its targets: nothing. */
  lemma OthersKept(before: map<Path, Body>, after: map<Path, Body>, f: Path, volumes: seq<seq<File>>,
                   faults: nat -> Faults, zipPaths: seq<Path>, outcome: Outcome, p: Path)
    requires f != [] && Ran(before, after, f, volumes, faults, zipPaths, outcome)
    requires forall k | 0 <= k < |volumes| :: VolumePath(f, |volumes|, k) != p
    ensures Same(before, after, p)
  {
    hide Succeeds, Complete, VolumePath;
    if outcome.Failed? {
      var mid :| Archived(before, mid, f, volumes, faults, zipPaths)
                 && StoppedAt(mid, after, f, volumes, faults, |zipPaths|, outcome.error);
      assert Same(before, mid, p) && Same(mid, after, p);
    }
  }

  /** The archives a call returns are finished when it ends, failed or not. */
  lemma ReturnedComplete(before: map<Path, Body>, after: map<Path, Body>, f: Path, volumes: seq<seq<File>>,
                         faults: nat -> Faults, zipPaths: seq<Path>, outcome: Outcome, k: nat)
    requires f != [] && Ran(before, after, f, volumes, faults, zipPaths, outcome) && k < |zipPaths|
    ensures k < |volumes| && zipPaths[k] == VolumePath(f, |volumes|, k)
    ensures Complete(before, after, zipPaths[k], PathsOf(volumes[k]))
  {
    hide Succeeds, VolumePath, Members;
    if outcome.Failed? {
      var n := |zipPaths|;
      var mid :| Archived(before, mid, f, volumes, faults, zipPaths)
                 && StoppedAt(mid, after, f, volumes, faults, n, outcome.error);
      FreshTarget(f, |volumes|, n);
      assert Same(mid, after, zipPaths[k]);
    }
  }

  /** A call succeeds if and only if every volume can be archived; when it stops, the error names
      the cause at the volume after the last one returned. */
  lemma OutcomeOf(before: map<Path, Body>, after: map<Path, Body>, f: Path, flist: seq<Path>, volumes: seq<seq<File>>,
                  faults: nat -> Faults, zipPaths: seq<Path>, outcome: Outcome)
    requires f != [] && Within(f, flist, volumes) && Ran(before, after, f, volumes, faults, zipPaths, outcome)
    ensures outcome.Done? <==> forall k | 0 <= k < |volumes| :: Succeeds(before, PathsOf(volumes[k]), faults(k))
    ensures outcome.Failed? ==> |zipPaths| < |volumes|
    ensures outcome.Failed? ==> (outcome.error == Duplicate <==> !DistinctBases(PathsOf(volumes[|zipPaths|])))
  {
    hide Succeeds, VolumePath, Members, DistinctBases, Complete;
    if outcome.Failed? {
      var n := |zipPaths|;
      var mid :| Archived(before, mid, f, volumes, faults, zipPaths)
                 && StoppedAt(mid, after, f, volumes, faults, n, outcome.error);
      InputsKept(before, mid, f, flist, volumes, faults, zipPaths, PathsOf(volumes[n]));
      SameInputs(before, mid, PathsOf(volumes[n]), faults(n));
    }
  }

  /** The members of the archives, one archive after the other. */
  function Contents(files: map<Path, Body>, zipPaths: seq<Path>): seq<Member>
    requires forall z <- zipPaths :: z in files && files[z].Zip?
  {
    if zipPaths == [] then [] else files[zipPaths[0]].members + Contents(files, zipPaths[1..])
  }

  predicate Readable(files: map<Path, Body>, paths: seq<Path>) {
    forall p <- paths :: p in files
  }

  lemma {:induction false} ContentsAre(before: map<Path, Body>, after: map<Path, Body>, volumes: seq<seq<File>>,
                                       zipPaths: seq<Path>)
    requires |zipPaths| == |volumes|
    requires forall k | 0 <= k < |volumes| :: Complete(before, after, zipPaths[k], PathsOf(volumes[k]))
    ensures forall z <- zipPaths :: z in after && after[z].Zip?
    ensures Readable(before, PathsOf(Flatten(volumes)))
    ensures Contents(after, zipPaths) == Members(before, PathsOf(Flatten(volumes)))
  {
    forall z | z in zipPaths ensures z in after && after[z].Zip? {
      var k :| 0 <= k < |zipPaths| && zipPaths[k] == z;
      assert Complete(before, after, zipPaths[k], PathsOf(volumes[k]));
    }
    if volumes != [] {
      hide Members, PathsOf;
      forall k | 0 <= k < |volumes[1..]| ensures Complete(before, after, zipPaths[1..][k], PathsOf(volumes[1..][k])) {
        assert Complete(before, after, zipPaths[k + 1], PathsOf(volumes[k + 1]));
      }
      ContentsAre(before, after, volumes[1..], zipPaths[1..]);
      assert Complete(before, after, zipPaths[0], PathsOf(volumes[0]));
      var first, rest := PathsOf(volumes[0]), PathsOf(Flatten(volumes[1..]));
      PathsSplit(volumes[0], Flatten(volumes[1..]));
      MembersSplit(before, first, rest);
    }
  }

  lemma PathsSplit(a: seq<File>, b: seq<File>)
    ensures PathsOf(a + b) == PathsOf(a) + PathsOf(b)
  {}

  lemma MembersSplit(files: map<Path, Body>, a: seq<Path>, b: seq<Path>)
    requires Readable(files, a) && Readable(files, b)
    ensures Readable(files, a + b) && Members(files, a + b) == Members(files, a) + Members(files, b)
  {}

  lemma WrittenBefore(disks: seq<map<Path, Body>>, f: Path, volumes: seq<seq<File>>, faults: nat -> Faults,
                      n: nat, k: nat)
    requires f != [] && 0 < k < n <= |disks| && Written(disks, f, volumes, faults, k)
    ensures Written(disks[..n], f, volumes, faults, k)
  {
    hide Succeeds, Members, VolumePath;
    assert disks[..n][k] == disks[k] && disks[..n][k - 1] == disks[k - 1];
  }

  lemma {:induction false} ChainArchived(disks: seq<map<Path, Body>>, f: Path, flist: seq<Path>,
                                         volumes: seq<seq<File>>, faults: nat -> Faults, zipPaths: seq<Path>)
    requires f != [] && Within(f, flist, volumes) && |disks| == |zipPaths| + 1 && |zipPaths| <= |volumes|
    requires forall k | 0 <= k < |zipPaths| :: zipPaths[k] == VolumePath(f, |volumes|, k)
    requires forall k | 0 < k <= |zipPaths| :: Written(disks, f, volumes, faults, k)
    ensures Archived(disks[0], disks[|zipPaths|], f, volumes, faults, zipPaths)
    decreases |zipPaths|
  {
    var n := |zipPaths|;
    if n > 0 {
      hide Succeeds, Members, VolumePath, TargetsApart, Archived;
      forall k | 0 < k < n ensures Written(disks[..n], f, volumes, faults, k) {
        WrittenBefore(disks, f, volumes, faults, n, k);
      }
      ChainArchived(disks[..n], f, flist, volumes, faults, zipPaths[..n - 1]);
      var target, inputs := VolumePath(f, |volumes|, n - 1), PathsOf(volumes[n - 1]);
      TargetNotInput(f, flist, volumes, n - 1);
      TargetAside(disks[n - 1], target, inputs, faults(n - 1));
      assert Written(disks, f, volumes, faults, n);
      OneMore(disks[0], disks[n - 1], disks[n], f, flist, volumes, faults, zipPaths);
    }
  }

  /** When no target is among the inputs, the archives are made of the inputs as the call found them. */
  lemma ChainRan(before: map<Path, Body>, after: map<Path, Body>, f: Path, flist: seq<Path>, volumes: seq<seq<File>>,
                 faults: nat -> Faults, disks: seq<map<Path, Body>>, zipPaths: seq<Path>, outcome: Outcome)
    requires f != [] && Within(f, flist, volumes)
    requires Chain(before, after, f, volumes, faults, disks, zipPaths, outcome)
    ensures Ran(before, after, f, volumes, faults, zipPaths, outcome)
  {
    hide Succeeds, Members, VolumePath, TargetsApart, Archived, StoppedAt, DistinctBases;
    ChainArchived(disks, f, flist, volumes, faults, zipPaths);
    if outcome.Failed? {
      var n := |zipPaths|;
      var target, inputs := VolumePath(f, |volumes|, n), PathsOf(volumes[n]);
      TargetNotInput(f, flist, volumes, n);
      TargetAside(disks[n], target, inputs, faults(n));
      StopsHere(disks[n], after, f, volumes, faults, n, outcome.error);
    }
  }

  /** Every archive a call returns holds what the disk held just before it was written. */
  lemma ChainHolds(before: map<Path, Body>, after: map<Path, Body>, f: Path, volumes: seq<seq<File>>,
                   faults: nat -> Faults, disks: seq<map<Path, Body>>, zipPaths: seq<Path>, outcome: Outcome, k: nat)
    requires f != [] && Chain(before, after, f, volumes, faults, disks, zipPaths, outcome) && k < |zipPaths|
    ensures k + 1 < |disks| && k < |volumes| && zipPaths[k] in disks[k + 1] && disks[k + 1][zipPaths[k]].Zip?
    ensures Holds(disks[k + 1][zipPaths[k]].members, disks[k], zipPaths[k], PathsOf(volumes[k]))
  {
    hide Succeeds, Members, Holds, VolumePath;
    assert Written(disks, f, volumes, faults, k + 1);
    SucceedsMeans(disks[k], zipPaths[k], PathsOf(volumes[k]), faults(k));
  }

  /** A finished archive of inputs with different names. */
  lemma CompleteHolds(before: map<Path, Body>, after: map<Path, Body>, p: Path, inputs: seq<Path>)
    requires Complete(before, after, p, inputs) && DistinctBases(inputs)
    ensures after[p].Zip? && Holds(after[p].members, before, p, inputs)
  {}

  /** When no target is among the inputs, every archive a call returns holds, when the call ends, the
      files of its volume as the call found them. */
  lemma ReturnedHold(before: map<Path, Body>, after: map<Path, Body>, f: Path, flist: seq<Path>,
                     volumes: seq<seq<File>>, faults: nat -> Faults, disks: seq<map<Path, Body>>,
                     zipPaths: seq<Path>, outcome: Outcome, k: nat)
    requires f != [] && Within(f, flist, volumes) && k < |zipPaths|
    requires Chain(before, after, f, volumes, faults, disks, zipPaths, outcome)
    ensures k < |volumes| && zipPaths[k] in after && after[zipPaths[k]].Zip?
    ensures Holds(after[zipPaths[k]].members, before, zipPaths[k], PathsOf(volumes[k]))
  {
    hide Holds, VolumePath, Chain, TargetsApart, Members;
    ChainRan(before, after, f, flist, volumes, faults, disks, zipPaths, outcome);
    ReturnedComplete(before, after, f, volumes, faults, zipPaths, outcome, k);
    ReturnedDistinct(before, after, f, volumes, faults, zipPaths, outcome, k);
    CompleteHolds(before, after, zipPaths[k], PathsOf(volumes[k]));
  }

  lemma ReturnedDistinct(before: map<Path, Body>, after: map<Path, Body>, f: Path, volumes: seq<seq<File>>,
                         faults: nat -> Faults, zipPaths: seq<Path>, outcome: Outcome, k: nat)
    requires f != [] && Ran(before, after, f, volumes, faults, zipPaths, outcome) && k < |zipPaths|
    ensures k < |volumes| && DistinctBases(PathsOf(volumes[k]))
  {
    hide VolumePath, Complete, Same, DistinctBases;
  }
}
