/** The greedy volume splitter of FCompressVol (internal/sticker/util.go). */
module Volumes {
  import opened Paths

  const MAX_VOL_SIZE: nat := 50 * 1000 * 1000

  /** A path as `os.Stat` sees it: its size, or an error. */
  datatype Stat = Size(size: nat) | StatError

  datatype File = File(path: Path, size: nat)

  /** The files the splitter keeps: those that can be stat-ed, in order. */
  function Statable(paths: seq<Path>, stats: seq<Stat>): seq<File>
    requires |paths| == |stats|
  {
    if paths == [] then []
    else (if stats[0].Size? then [File(paths[0], stats[0].size)] else []) + Statable(paths[1..], stats[1..])
  }

  function Total(files: seq<File>): nat {
    if files == [] then 0 else files[0].size + Total(files[1..])
  }

  function Flatten(volumes: seq<seq<File>>): seq<File> {
    if volumes == [] then [] else volumes[0] + Flatten(volumes[1..])
  }

  /** What a volume may hold: less than the limit, or empty files and then one file. */
  predicate Admissible(volume: seq<File>) {
    Total(volume) < MAX_VOL_SIZE || (|volume| > 0 && Total(volume[..|volume| - 1]) == 0)
  }

  /** A new volume is started only when the file would fill a volume that holds bytes. */
  predicate Overflows(volume: seq<File>, next: File) {
    Total(volume) > 0 && Total(volume) + next.size >= MAX_VOL_SIZE
  }

  predicate CutAt(volumes: seq<seq<File>>, k: nat) {
    0 < k < |volumes| && |volumes[k]| > 0 && Overflows(volumes[k - 1], volumes[k][0])
  }

  /** The splits the loop can produce: nothing lost, every volume used, cut only when full. */
  predicate GreedySplit(volumes: seq<seq<File>>, files: seq<File>) {
    && Flatten(volumes) == files
    && (forall k | 0 <= k < |volumes| :: |volumes[k]| > 0 && Admissible(volumes[k]))
    && (forall k | 0 < k < |volumes| :: CutAt(volumes, k))
  }

  lemma {:induction false} TotalSplits(a: seq<File>, b: seq<File>)
    ensures Total(a + b) == Total(a) + Total(b)
  {
    if a == [] {
      assert a + b == b;
    } else {
      assert (a + b)[1..] == a[1..] + b;
      TotalSplits(a[1..], b);
    }
  }

  lemma {:induction false} FlattenSplits(a: seq<seq<File>>, b: seq<seq<File>>)
    ensures Flatten(a + b) == Flatten(a) + Flatten(b)
  {
    if a == [] {
      assert a + b == b;
    } else {
      assert (a + b)[1..] == a[1..] + b;
      FlattenSplits(a[1..], b);
    }
  }

  lemma {:induction false} StatableSplits(paths: seq<Path>, stats: seq<Stat>, k: nat)
    requires |paths| == |stats| && k < |paths|
    ensures Statable(paths[..k + 1], stats[..k + 1])
         == Statable(paths[..k], stats[..k])
            + (if stats[k].Size? then [File(paths[k], stats[k].size)] else [])
    decreases k
  {
    if k > 0 {
      StatableSplits(paths[1..], stats[1..], k - 1);
      assert paths[..k + 1][1..] == paths[1..][..k] && stats[..k + 1][1..] == stats[1..][..k];
      assert paths[..k][1..] == paths[1..][..k - 1] && stats[..k][1..] == stats[1..][..k - 1];
    }
  }

  /** How many paths can be stat-ed. */
  function Sized(stats: seq<Stat>): nat {
    if stats == [] then 0 else Sized(stats[..|stats| - 1]) + if stats[|stats| - 1].Size? then 1 else 0
  }

  /** The splitter is given exactly the paths that can be stat-ed, in order, with their sizes. */
  lemma {:induction false} StatableIs(paths: seq<Path>, stats: seq<Stat>)
    requires |paths| == |stats|
    ensures |Statable(paths, stats)| == Sized(stats)
    ensures forall i | 0 <= i < |stats| && stats[i].Size? ::
      Sized(stats[..i]) < Sized(stats) && Statable(paths, stats)[Sized(stats[..i])] == File(paths[i], stats[i].size)
    decreases |paths|
  {
    var n := |paths|;
    if n > 0 {
      StatableIs(paths[..n - 1], stats[..n - 1]);
      StatableSplits(paths, stats, n - 1);
      assert paths[..n] == paths && stats[..n] == stats;
      forall i | 0 <= i < n && stats[i].Size?
        ensures Sized(stats[..i]) < Sized(stats)
        ensures Statable(paths, stats)[Sized(stats[..i])] == File(paths[i], stats[i].size)
      {
        if i < n - 1 { assert stats[..n - 1][..i] == stats[..i] && stats[..n - 1][i] == stats[i]; }
      }
    }
  }

  /** Adding the next file to the open volume. */
  lemma Extended(volumes: seq<seq<File>>, files: seq<File>, file: File)
    requires GreedySplit(volumes, files) && volumes != [] && !Overflows(volumes[|volumes| - 1], file)
    ensures var k := |volumes| - 1; GreedySplit(volumes[k := volumes[k] + [file]], files + [file])
  {
    hide Total, Flatten;
    var k := |volumes| - 1;
    var last := volumes[k];
    var volumes' := volumes[k := last + [file]];
    ExtendedAdmissible(last, file);
    assert Flatten(volumes') == files + [file] by {
      assert volumes == volumes[..k] + [last] && volumes' == volumes[..k] + [last + [file]];
      FlattenSplits(volumes[..k], [last]);
      FlattenSplits(volumes[..k], [last + [file]]);
      FlattenOne(last);
      FlattenOne(last + [file]);
    }
    forall j | 0 < j < |volumes'| ensures CutAt(volumes', j) {
      assert CutAt(volumes, j);
    }
  }

  lemma FlattenOne(volume: seq<File>)
    ensures Flatten([volume]) == volume
  {
    assert Flatten([volume][1..]) == [];
  }

  lemma ExtendedAdmissible(volume: seq<File>, file: File)
    requires Admissible(volume) && !Overflows(volume, file)
    ensures Admissible(volume + [file])
  {
    TotalSplits(volume, [file]);
    assert (volume + [file])[..|volume|] == volume;
  }

  /** Starting a volume with the next file. */
  lemma Started(volumes: seq<seq<File>>, files: seq<File>, file: File)
    requires GreedySplit(volumes, files) && (volumes != [] ==> Overflows(volumes[|volumes| - 1], file))
    ensures GreedySplit(volumes + [[file]], files + [file])
  {
    FlattenSplits(volumes, [[file]]);
    FlattenOne([file]);
    assert [file][..0] == [];
    forall j | 0 < j < |volumes + [[file]]| ensures CutAt(volumes + [[file]], j) {
      assert j < |volumes| ==> CutAt(volumes, j);
    }
  }

  lemma TotalOne(file: File)
    ensures Total([file]) == file.size
  {
    assert Total([file][1..]) == 0;
  }

  lemma EmptySplit()
    ensures GreedySplit([], [])
  {}

  /** The loop of FCompressVol, with `os.Stat` answers as given. */
  method SplitVolumes(paths: seq<Path>, stats: seq<Stat>) returns (volumes: seq<seq<File>>)
    requires |paths| == |stats|
    ensures GreedySplit(volumes, Statable(paths, stats))
  {
    hide Total, Flatten, GreedySplit;
    volumes := [];
    var curSize := 0;
    assert GreedySplit([], []) by { EmptySplit(); }
    for i := 0 to |paths|
      invariant GreedySplit(volumes, Statable(paths[..i], stats[..i]))
      invariant volumes != [] ==> curSize == Total(volumes[|volumes| - 1])
    {
      StatableSplits(paths, stats, i);
      ghost var kept := Statable(paths[..i], stats[..i]);
      assert stats[i].StatError? ==> kept + [] == kept;
      if stats[i].StatError? {
        continue;
      }
      var file := File(paths[i], stats[i].size);
      TotalOne(file);
      if volumes == [] || (curSize + file.size >= MAX_VOL_SIZE && curSize > 0) {
        Started(volumes, kept, file);
        volumes := volumes + [[file]];
        curSize := file.size;
      } else {
        assert !Overflows(volumes[|volumes| - 1], file);
        Extended(volumes, kept, file);
        TotalSplits(volumes[|volumes| - 1], [file]);
        volumes := volumes[|volumes| - 1 := volumes[|volumes| - 1] + [file]];
        curSize := curSize + file.size;
      }
    }
    assert paths[..|paths|] == paths && stats[..|stats|] == stats;
  }

  /** A piece holds no more than the whole. */
  lemma TotalPiece(run: seq<File>, i: nat, j: nat)
    requires i <= j <= |run|
    ensures Total(run[i..j]) <= Total(run)
  {
    hide Total;
    assert run == run[..i] + run[i..j] + run[j..];
    TotalSplits(run[..i] + run[i..j], run[j..]);
    TotalSplits(run[..i], run[i..j]);
  }

  /** A piece of an admissible run is admissible. */
  lemma PieceAdmissible(run: seq<File>, i: nat, j: nat)
    requires i <= j <= |run| && Admissible(run)
    ensures Admissible(run[i..j])
  {
    hide Total;
    TotalPiece(run, i, j);
    if Total(run) >= MAX_VOL_SIZE {
      var n := |run| - 1;
      if j <= n {
        TotalPiece(run[..n], i, j);
        assert run[..n][i..j] == run[i..j];
      } else if i < j {
        TotalPiece(run[..n], i, n);
        assert run[..n][i..n] == run[i..j][..n - i];
      } else {
        EmptyTotal();
        assert run[i..j] == [];
      }
    }
  }

  lemma EmptyTotal()
    ensures Total([]) == 0
  {}

  /** Nothing more fits: a volume with the first file of the next is not admissible. */
  lemma FullVolume(volume: seq<File>, next: File)
    requires Overflows(volume, next)
    ensures !Admissible(volume + [next])
  {
    TotalSplits(volume, [next]);
    assert (volume + [next])[..|volume|] == volume;
  }

  /** Files covered by the first `k` volumes. */
  function Reach(volumes: seq<seq<File>>, k: nat): nat
    requires k <= |volumes|
  {
    |Flatten(volumes[..k])|
  }

  lemma VolumeAt(volumes: seq<seq<File>>, k: nat)
    requires k < |volumes|
    ensures Reach(volumes, k + 1) == Reach(volumes, k) + |volumes[k]| <= |Flatten(volumes)|
    ensures Flatten(volumes)[Reach(volumes, k)..Reach(volumes, k + 1)] == volumes[k]
  {
    assert volumes[..k + 1] == volumes[..k] + [volumes[k]];
    FlattenSplits(volumes[..k], [volumes[k]]);
    assert volumes == volumes[..k + 1] + volumes[k + 1..];
    FlattenSplits(volumes[..k + 1], volumes[k + 1..]);
  }

  lemma ReachAll(volumes: seq<seq<File>>)
    ensures Reach(volumes, |volumes|) == |Flatten(volumes)|
  {
    assert volumes[..|volumes|] == volumes;
  }

  lemma PieceAndNext(files: seq<File>, from: nat, to: nat, i: nat, j: nat)
    requires from <= i <= j < to <= |files|
    ensures files[from..to][i - from..j + 1 - from] == files[i..j] + [files[j]]
  {
    var run := files[from..to];
    var a, b := run[i - from..j + 1 - from], files[i..j] + [files[j]];
    forall k | 0 <= k < |b| ensures a[k] == b[k] {
      assert a[k] == run[i - from + k] == files[i + k];
    }
  }

  /** A run that starts no later than a greedy volume and ends beyond it cannot be admissible. */
  lemma CannotOvertake(greedy: seq<seq<File>>, files: seq<File>, k: nat, from: nat, to: nat)
    requires GreedySplit(greedy, files) && k < |greedy|
    requires from <= Reach(greedy, k) && Reach(greedy, k + 1) < to <= |files| && from <= to
    ensures !Admissible(files[from..to])
  {
    hide Total, Flatten, Admissible;
    var g0, g1 := Reach(greedy, k), Reach(greedy, k + 1);
    VolumeAt(greedy, k);
    ReachAll(greedy);
    assert k + 1 < |greedy|;
    VolumeAt(greedy, k + 1);
    assert files[g1] == files[g1..Reach(greedy, k + 2)][0] == greedy[k + 1][0];
    PieceAndNext(files, from, to, g0, g1);
    assert CutAt(greedy, k + 1);
    FullVolume(greedy[k], greedy[k + 1][0]);
    if Admissible(files[from..to]) {
      PieceAdmissible(files[from..to], g0 - from, g1 + 1 - from);
      assert false;
    }
  }

  /** Greedy stays ahead: after k volumes it has covered at least as many files as any split. */
  lemma {:induction false} GreedyStaysAhead(greedy: seq<seq<File>>, other: seq<seq<File>>, files: seq<File>, k: nat)
    requires GreedySplit(greedy, files) && Flatten(other) == files
    requires forall v <- other :: Admissible(v)
    requires k <= |greedy| && k <= |other|
    ensures Reach(greedy, k) >= Reach(other, k)
  {
    hide Total, Flatten, Admissible;
    if k > 0 {
      GreedyStaysAhead(greedy, other, files, k - 1);
      VolumeAt(other, k - 1);
      if Reach(greedy, k) < Reach(other, k) {
        CannotOvertake(greedy, files, k - 1, Reach(other, k - 1), Reach(other, k));
        assert false;
      }
    } else {
      assert other[..0] == greedy[..0] == [];
    }
  }

  /** Main result: no order-preserving split into admissible runs has fewer volumes. */
  lemma {:induction false} GreedyOptimal(greedy: seq<seq<File>>, other: seq<seq<File>>, files: seq<File>)
    requires GreedySplit(greedy, files) && Flatten(other) == files
    requires forall v <- other :: Admissible(v)
    ensures |greedy| <= |other|
  {
    if |greedy| > |other| {
      var m := |other|;
      GreedyStaysAhead(greedy, other, files, m);
      ReachAll(other);
      VolumeAt(greedy, m);
      assert false;
    }
  }

  /** The same for files below the limit, and runs that sum to strictly less than it. */
  lemma {:induction false} GreedyFewestVolumes(greedy: seq<seq<File>>, other: seq<seq<File>>, files: seq<File>)
    requires GreedySplit(greedy, files) && Flatten(other) == files
    requires forall v <- other :: Total(v) < 50_000_000
    ensures |greedy| <= |other|
  {
    GreedyOptimal(greedy, other, files);
  }

  /** The split is determined by the files: any two greedy splits are the same. */
  lemma GreedyUnique(a: seq<seq<File>>, b: seq<seq<File>>, files: seq<File>)
    requires GreedySplit(a, files) && GreedySplit(b, files)
    ensures a == b
  {
    hide Total, Flatten, Reach;
    GreedyOptimal(a, b, files);
    GreedyOptimal(b, a, files);
    forall k | 0 <= k < |a| ensures a[k] == b[k] {
      GreedyStaysAhead(a, b, files, k);
      GreedyStaysAhead(b, a, files, k);
      GreedyStaysAhead(a, b, files, k + 1);
      GreedyStaysAhead(b, a, files, k + 1);
      VolumeAt(a, k);
      VolumeAt(b, k);
    }
  }

  /** A volume at or above the limit: empty files, then one file that alone reaches it. */
  lemma OversizedShape(volumes: seq<seq<File>>, files: seq<File>, k: nat)
    requires GreedySplit(volumes, files) && k < |volumes| && Total(volumes[k]) >= MAX_VOL_SIZE
    ensures var v, n := volumes[k], |volumes[k]| - 1;
      (forall j | 0 <= j < n :: v[j].size == 0) && v[n].size >= MAX_VOL_SIZE
  {
    var v, n := volumes[k], |volumes[k]| - 1;
    assert v == v[..n] + [v[n]];
    TotalSplits(v[..n], [v[n]]);
    TotalOne(v[n]);
    forall j | 0 <= j < n ensures v[j].size == 0 {
      MemberAtMost(v[..n], j);
    }
  }

  lemma {:induction false} MemberAtMost(files: seq<File>, j: nat)
    requires j < |files|
    ensures files[j].size <= Total(files)
  {
    if j > 0 { MemberAtMost(files[1..], j - 1); }
  }

  /** Every file is somewhere in its volume. */
  lemma {:induction false} VolumeOf(volumes: seq<seq<File>>, i: nat) returns (k: nat, j: nat)
    requires i < |Flatten(volumes)|
    ensures k < |volumes| && j < |volumes[k]| && volumes[k][j] == Flatten(volumes)[i]
  {
    if i < |volumes[0]| {
      k, j := 0, i;
    } else {
      k, j := VolumeOf(volumes[1..], i - |volumes[0]|);
      k := k + 1;
    }
  }

  /** Main result: the volumes stay below the limit if and only if every file does. */
  lemma AllBelowIff(volumes: seq<seq<File>>, files: seq<File>)
    requires GreedySplit(volumes, files)
    ensures (forall v <- volumes :: Total(v) < 50_000_000) <==> (forall f <- files :: f.size < 50_000_000)
  {
    hide Total, Flatten;
    if forall v <- volumes :: Total(v) < MAX_VOL_SIZE {
      forall i | 0 <= i < |files| ensures files[i].size < MAX_VOL_SIZE {
        var k, j := VolumeOf(volumes, i);
        assert volumes[k] in volumes;
        MemberAtMost(volumes[k], j);
      }
    }
    if k :| 0 <= k < |volumes| && Total(volumes[k]) >= MAX_VOL_SIZE {
      OversizedShape(volumes, files, k);
      VolumeAt(volumes, k);
      var n := |volumes[k]| - 1;
      assert volumes[k][n] == files[Reach(volumes, k)..Reach(volumes, k + 1)][n];
      assert volumes[k][n] in files && volumes[k] in volumes;
    }
  }

  /** One file that reaches the limit is archived all the same, in a volume that is too big. */
  lemma OversizedVolume()
    ensures var big := File(["big"], MAX_VOL_SIZE);
      GreedySplit([[big]], [big]) && Total([big]) >= MAX_VOL_SIZE
  {
    var big := File(["big"], MAX_VOL_SIZE);
    FlattenOne([big]);
    TotalOne(big);
    assert [big][..0] == [];
  }

  /** Bytes assigned to bin `b`. */
  function Load(files: seq<File>, bins: seq<nat>, b: nat): nat
    requires |files| == |bins|
  {
    if files == [] then 0
    else (if bins[0] == b then files[0].size else 0) + Load(files[1..], bins[1..], b)
  }

  /** Bytes assigned to the first `m` bins. */
  function Loads(files: seq<File>, bins: seq<nat>, m: nat): nat
    requires |files| == |bins|
  {
    if m == 0 then 0 else Load(files, bins, m - 1) + Loads(files, bins, m - 1)
  }

  /** Any assignment of the files to `m` bins, contiguous or not, each below the limit. */
  predicate Packing(files: seq<File>, bins: seq<nat>, m: nat) {
    && |files| == |bins|
    && (forall b <- bins :: b < m)
    && (forall b: nat | b < m :: Load(files, bins, b) < MAX_VOL_SIZE)
  }

  lemma {:induction false} LoadsUnfold(files: seq<File>, bins: seq<nat>, m: nat)
    requires |files| == |bins| && files != []
    ensures Loads(files, bins, m) == (if bins[0] < m then files[0].size else 0) + Loads(files[1..], bins[1..], m)
    decreases m
  {
    if m > 0 { LoadsUnfold(files, bins, m - 1); }
  }

  lemma {:induction false} LoadsAreTotal(files: seq<File>, bins: seq<nat>, m: nat)
    requires |files| == |bins| && forall b <- bins :: b < m
    ensures Loads(files, bins, m) == Total(files)
    decreases |files|
  {
    if files == [] {
      NoFilesNoLoad(m);
    } else {
      LoadsUnfold(files, bins, m);
      assert bins[0] in bins && forall b <- bins[1..] :: b in bins;
      LoadsAreTotal(files[1..], bins[1..], m);
    }
  }

  lemma {:induction false} NoFilesNoLoad(m: nat)
    ensures Loads([], [], m) == 0
  {
    if m > 0 { NoFilesNoLoad(m - 1); }
  }

  lemma {:induction false} LoadsBelow(files: seq<File>, bins: seq<nat>, m: nat, k: nat)
    requires Packing(files, bins, m) && k <= m
    ensures Loads(files, bins, k) <= k * (MAX_VOL_SIZE - 1)
    decreases k
  {
    if k > 0 { LoadsBelow(files, bins, m, k - 1); }
  }

  lemma NeighboursFill(v0: seq<File>, v1: seq<File>, rest: seq<File>)
    requires |v1| > 0 && Overflows(v0, v1[0])
    ensures Total(v0 + (v1 + rest)) >= MAX_VOL_SIZE + Total(rest)
  {
    TotalSplits(v0, v1 + rest);
    TotalSplits(v1, rest);
  }

  /** Two neighbouring volumes hold at least the limit, so pairs of them add up. */
  lemma {:induction false} PairsFill(volumes: seq<seq<File>>)
    requires forall k | 0 < k < |volumes| :: CutAt(volumes, k)
    ensures Total(Flatten(volumes)) >= |volumes| / 2 * MAX_VOL_SIZE
    decreases |volumes|
  {
    hide Total, Overflows;
    if |volumes| >= 2 {
      var rest := volumes[2..];
      assert volumes[1..][1..] == rest;
      assert CutAt(volumes, 1);
      NeighboursFill(volumes[0], volumes[1], Flatten(rest));
      forall k | 0 < k < |rest| ensures CutAt(rest, k) {
        assert CutAt(volumes, k + 2);
      }
      PairsFill(rest);
      assert |volumes| / 2 == |rest| / 2 + 1;
    }
  }

  /** Main result: at most 2 * m - 1 volumes when any `m` bins can hold the files. */
  lemma GreedyWithinTwice(greedy: seq<seq<File>>, files: seq<File>, bins: seq<nat>, m: nat)
    requires GreedySplit(greedy, files) && files != [] && Packing(files, bins, m)
    ensures |greedy| <= 2 * m - 1
  {
    hide Total, Load, Loads;
    PairsFill(greedy);
    LoadsBelow(files, bins, m, m);
    LoadsAreTotal(files, bins, m);
    assert m > 0 by { assert bins[0] in bins; }
    assert |greedy| / 2 < m;
  }

  const SMALL: File := File(["s"], 1)
  const BIG: File := File(["b"], MAX_VOL_SIZE - 1)

  /** `m` small files with m - 1 big ones in between, and bins for them: one for all the small
      files, and one for each big file. */
  function Alternating(m: nat): seq<File>
    requires m > 0
  {
    if m == 1 then [SMALL] else [SMALL, BIG] + Alternating(m - 1)
  }

  function OneForSmall(m: nat): seq<nat>
    requires m > 0
  {
    if m == 1 then [0] else [0, m - 1] + OneForSmall(m - 1)
  }

  /** Every file in a volume of its own. */
  function Singles(files: seq<File>): seq<seq<File>> {
    if files == [] then [] else [[files[0]]] + Singles(files[1..])
  }

  lemma {:induction false} SinglesAt(files: seq<File>)
    ensures |Singles(files)| == |files| && Flatten(Singles(files)) == files
    ensures forall k | 0 <= k < |files| :: Singles(files)[k] == [files[k]]
  {
    if files != [] {
      var rest := Singles(files[1..]);
      SinglesAt(files[1..]);
      assert Singles(files)[1..] == rest;
      assert files == [files[0]] + files[1..];
    }
  }

  lemma {:induction false} AlternatingShape(m: nat)
    requires m > 0
    ensures var files := Alternating(m);
      && |files| == |OneForSmall(m)| == 2 * m - 1
      && files[0] == SMALL
      && (forall k | 0 <= k < |files| :: files[k] == SMALL || files[k] == BIG)
      && (forall k | 0 < k < |files| :: files[k - 1].size + files[k].size == MAX_VOL_SIZE)
      && (forall b <- OneForSmall(m) :: b < m)
  {
    if m > 1 {
      AlternatingShape(m - 1);
      var files, rest := Alternating(m), Alternating(m - 1);
      assert forall k | 2 <= k < |files| :: files[k] == rest[k - 2];
      forall k | 0 < k < |files| ensures files[k - 1].size + files[k].size == MAX_VOL_SIZE {
        if k > 2 { assert rest[k - 2 - 1].size + rest[k - 2].size == MAX_VOL_SIZE; }
      }
    }
  }

  lemma {:induction false} AlternatingLoad(m: nat, b: nat)
    requires m > 0 && |Alternating(m)| == |OneForSmall(m)|
    ensures Load(Alternating(m), OneForSmall(m), b)
         == if b == 0 then m else if b < m then MAX_VOL_SIZE - 1 else 0
  {
    if m == 1 {
      assert [SMALL][1..] == [];
    } else {
      AlternatingShape(m - 1);
      var files, bins := Alternating(m), OneForSmall(m);
      assert files[1..] == [BIG] + Alternating(m - 1) && bins[1..] == [m - 1] + OneForSmall(m - 1);
      assert files[1..][1..] == Alternating(m - 1) && bins[1..][1..] == OneForSmall(m - 1);
      AlternatingLoad(m - 1, b);
    }
  }

  /** The bound is reached for every number of bins below the limit: 2 * m - 1 volumes where
      `m` bins are enough. */
  lemma TwiceIsReached(m: nat)
    requires 0 < m < MAX_VOL_SIZE
    ensures var files := Alternating(m);
      GreedySplit(Singles(files), files) && |Singles(files)| == 2 * m - 1 && Packing(files, OneForSmall(m), m)
  {
    hide Flatten, Load;
    var files := Alternating(m);
    AlternatingShape(m);
    SinglesAt(files);
    forall k | 0 <= k < |files| ensures Total(Singles(files)[k]) == files[k].size {
      TotalOne(files[k]);
    }
    forall b: nat | b < m ensures Load(files, OneForSmall(m), b) < MAX_VOL_SIZE {
      AlternatingLoad(m, b);
    }
  }
}
