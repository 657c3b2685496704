/** Managed temporary directories (internal/storage/tempfile.go) over a file tree. */
module TempDirs {
  import opened Sets
  import opened Text
  import opened Paths

  /** What Lstat sees at a path. */
  datatype Node = Dir(modTime: int) | Regular(data: string) | Link(target: string)

  type Tree = map<Path, Node>

  /** ^[0-9]+_[0-9a-f]{16}$ */
  predicate Managed(name: string) {
    && |name| >= 18
    && (forall i | 0 <= i < |name| - 17 :: IsDigit(name[i]))
    && name[|name| - 17] == '_'
    && forall i | |name| - 16 <= i < |name| :: IsHex(name[i])
  }

  function DirName(uid: int, random: seq<bv8>): string {
    Int(uid) + "_" + Hex(random)
  }

  /** The printer meets the recogniser, for users that are not negative and for no others. */
  lemma NameManagedIff(uid: int, random: seq<bv8>)
    requires |random| == 8
    ensures Managed(DirName(uid, random)) <==> uid >= 0
  {
    var name, digits, hex := DirName(uid, random), Int(uid), Hex(random);
    assert forall i | 0 <= i < |digits| :: name[i] == digits[i];
    assert name[|digits|] == '_';
    assert forall i | 0 <= i < 16 :: name[|digits| + 1 + i] == hex[i] && hex[i] in hex;
    if uid >= 0 {
      assert forall i | 0 <= i < |digits| :: digits[i] in Dec(uid);
      assert forall i | |name| - 16 <= i < |name| :: name[i] == hex[i - |digits| - 1];
    } else {
      assert name[0] == '-';
    }
  }

  /** One or more digits, an underscore, sixteen lower-case hexadecimal digits. */
  ghost predicate Parts(name: string, digits: string, hex: string) {
    && name == digits + "_" + hex && |digits| >= 1 && |hex| == 16
    && (forall c <- digits :: '0' <= c <= '9') && (forall c <- hex :: '0' <= c <= '9' || 'a' <= c <= 'f')
  }

  lemma ManagedFrom(name: string, digits: string, hex: string)
    requires Parts(name, digits, hex)
    ensures Managed(name)
  {
    var n := |digits|;
    assert forall i | 0 <= i < n :: name[i] == digits[i] && digits[i] in digits;
    assert forall i | n < i < |name| :: name[i] == hex[i - n - 1] && hex[i - n - 1] in hex;
  }

  /** The recogniser accepts exactly the names of that form. */
  lemma ManagedIff(name: string)
    ensures Managed(name) <==> exists digits, hex :: Parts(name, digits, hex)
  {
    if Managed(name) {
      var n := |name| - 17;
      var digits, hex := name[..n], name[n + 1..];
      assert name == digits + "_" + hex;
      assert forall c <- digits :: IsDigit(c);
      assert forall i | 0 <= i < 16 :: hex[i] == name[n + 1 + i] && IsHex(hex[i]);
      assert Parts(name, digits, hex);
    }
    if digits, hex :| Parts(name, digits, hex) {
      ManagedFrom(name, digits, hex);
    }
  }

  /** Different users or different random bytes give different directories. */
  lemma DirNameInjective(u: int, r: seq<bv8>, v: int, q: seq<bv8>)
    requires |r| == |q| && DirName(u, r) == DirName(v, q)
    ensures u == v && r == q
  {
    hide Int, Hex;
    var a, b := "_" + Hex(r), "_" + Hex(q);
    assert DirName(u, r) == Int(u) + a && DirName(v, q) == Int(v) + b;
    IntPrefixInjective(u, a, v, b);
    assert Hex(r) == a[1..] && Hex(q) == b[1..];
    HexInjective(r, q);
  }

  /** How a recursive removal ends: done, or stopped with these paths still there. */
  datatype Removal = Gone | Stuck(left: set<Path>)

  /** os.RemoveAll: everything at and below `p`; on an error what is left stays with its parents. */
  function RemoveAll(tree: Tree, p: Path, removal: Removal): Tree {
    map k | k in tree && (p <= k ==> removal.Stuck? && exists l <- removal.left :: k <= l) :: tree[k]
  }

  /** The managed directories directly below `base`. */
  predicate ManagedDir(tree: Tree, base: Path, p: Path) {
    |p| == |base| + 1 && p[..|base|] == base && Managed(p[|base|]) && p in tree && tree[p].Dir?
  }

  /** SafePath accepts; the text test on the relative path. */
  predicate Safe(cwd: Path, base: Path, dir: string)
    requires Clean(cwd) && Clean(base)
  {
    !Escapes(Rel(base, Abs(cwd, dir)))
  }

  /** Main result on SafePath: it accepts exactly the paths whose components start with the base's. */
  lemma SafeIffBelow(cwd: Path, base: Path, dir: string)
    requires Clean(cwd) && Clean(base)
    ensures Safe(cwd, base, dir) <==> base <= Abs(cwd, dir)
  {
    EscapesIffOutside(base, Abs(cwd, dir));
  }

  /** The names in the base directory that a purge goes for. */
  predicate Outdated(tree: Tree, base: Path, cutoff: int, name: string) {
    ManagedDir(tree, base, base + [name]) && tree[base + [name]].modTime < cutoff
  }

  /** What one purge meets: names whose Info fails, and how each removal ends. */
  datatype PurgeFaults = PurgeFaults(noInfo: set<string>, removals: string -> Removal)

  predicate Purges(tree: Tree, base: Path, cutoff: int, faults: PurgeFaults, name: string) {
    Outdated(tree, base, cutoff, name) && name !in faults.noInfo
  }

  predicate Survives(tree: Tree, base: Path, cutoff: int, faults: PurgeFaults, names: set<string>, k: Path) {
    |k| > |base| && base <= k && k[|base|] in names && Purges(tree, base, cutoff, faults, k[|base|]) ==>
      var removal := faults.removals(k[|base|]);
      removal.Stuck? && exists l <- removal.left :: k <= l
  }

  /** The tree once the purge has gone through `names`. */
  function PurgeTree(tree: Tree, base: Path, cutoff: int, faults: PurgeFaults, names: set<string>): Tree {
    map k | k in tree && Survives(tree, base, cutoff, faults, names, k) :: tree[k]
  }

  function Purged(tree: Tree, base: Path, cutoff: int, faults: PurgeFaults, names: set<string>): set<string> {
    set n | n in names && Purges(tree, base, cutoff, faults, n) && faults.removals(n).Gone?
  }

  /** os.ReadDir. */
  function Entries(tree: Tree, base: Path): set<string> {
    set p | p in tree && |p| == |base| + 1 && p[..|base|] == base :: p[|base|]
  }

  /** One more name: removing its directory alone, in the tree as it is by then. */
  lemma PurgeOneMore(tree: Tree, base: Path, cutoff: int, faults: PurgeFaults, names: set<string>, name: string)
    requires name !in names
    ensures var mid := PurgeTree(tree, base, cutoff, faults, names);
      PurgeTree(tree, base, cutoff, faults, names + {name})
      == if Purges(tree, base, cutoff, faults, name) then RemoveAll(mid, base + [name], faults.removals(name)) else mid
  {
    var mid := PurgeTree(tree, base, cutoff, faults, names);
    var after := PurgeTree(tree, base, cutoff, faults, names + {name});
    var p := base + [name];
    forall k | k in tree
      ensures p <= k <==> |k| > |base| && base <= k && k[|base|] == name
    {
      if |k| > |base| && base <= k && k[|base|] == name {
        assert k[..|base| + 1] == k[..|base|] + [k[|base|]] == p;
      }
    }
  }

  lemma PurgedOneMore(tree: Tree, base: Path, cutoff: int, faults: PurgeFaults, names: set<string>, name: string)
    requires name !in names
    ensures |Purged(tree, base, cutoff, faults, names + {name})| == |Purged(tree, base, cutoff, faults, names)|
      + if Purges(tree, base, cutoff, faults, name) && faults.removals(name).Gone? then 1 else 0
  {
    var one := Purged(tree, base, cutoff, faults, names + {name});
    if Purges(tree, base, cutoff, faults, name) && faults.removals(name).Gone? {
      assert one == Purged(tree, base, cutoff, faults, names) + {name};
    } else {
      assert one == Purged(tree, base, cutoff, faults, names);
    }
  }

  datatype Error = Exists | Mkdir | Outside | NotManaged | Missing | Remove | ReadDir

  datatype Result = Ok | Err(error: Error)

  class TempManager {
    const baseDir: Path
    /** The file tree the manager works on. */
    var tree: Tree

    constructor (baseDir: Path, tree: Tree)
      requires Clean(baseDir)
      ensures this.baseDir == baseDir && this.tree == tree && Valid()
    {
      this.baseDir, this.tree := baseDir, tree;
    }

    predicate Valid() {
      Clean(baseDir)
    }

    /** os.Mkdir is exclusive: it fails when anything is there. */
    method CreateUserDir(uid: int, random: seq<bv8>, now: int, mkdirFails: bool) returns (dir: Path, r: Result)
      requires Valid() && |random| == 8
      modifies this
      ensures Valid() && dir == baseDir + [DirName(uid, random)]
      ensures r.Ok? <==> dir !in old(tree) && !mkdirFails
      ensures tree == if r.Ok? then old(tree)[dir := Dir(now)] else old(tree)
    {
      dir := baseDir + [DirName(uid, random)];
      if dir in tree {
        return dir, Err(Exists);
      }
      if mkdirFails {
        return dir, Err(Mkdir);
      }
      tree := tree[dir := Dir(now)];
      return dir, Ok;
    }

    method CleanUserDir(cwd: Path, dir: string, removal: Removal) returns (r: Result)
      requires Valid() && Clean(cwd)
      modifies this
      ensures Valid()
      ensures r == Ok <==> ManagedDir(old(tree), baseDir, Abs(cwd, dir)) && removal.Gone?
      ensures tree == if ManagedDir(old(tree), baseDir, Abs(cwd, dir))
                      then RemoveAll(old(tree), Abs(cwd, dir), removal) else old(tree)
      ensures r == Ok ==> forall k :: k in tree <==> k in old(tree) && !(Abs(cwd, dir) <= k)
      ensures r == Err(Outside) <==> !(baseDir <= Abs(cwd, dir))
      ensures r == Err(Remove) <==> ManagedDir(old(tree), baseDir, Abs(cwd, dir)) && removal.Stuck?
    {
      var path := Abs(cwd, dir);
      SafeIffBelow(cwd, baseDir, dir);
      if Escapes(Rel(baseDir, path)) {
        return Err(Outside);
      }
      if path == [] || path[..|path| - 1] != baseDir || !Managed(path[|path| - 1]) {
        return Err(NotManaged);
      }
      if path !in tree {
        return Err(Missing);
      }
      if !tree[path].Dir? {
        return Err(NotManaged);
      }
      tree := RemoveAll(tree, path, removal);
      return if removal.Gone? then Ok else Err(Remove);
    }

    /** Removes the managed directories older than the cutoff, and counts those that went. */
    method PurgeOutdated(now: int, maxAge: int, readFails: bool, faults: PurgeFaults) returns (purged: nat, r: Result)
      requires Valid()
      modifies this
      ensures Valid()
      ensures readFails ==> r == Err(ReadDir) && purged == 0 && tree == old(tree)
      ensures !readFails ==> r == Ok
      ensures !readFails ==> var names := Entries(old(tree), baseDir);
        && tree == PurgeTree(old(tree), baseDir, now - maxAge, faults, names)
        && purged == |Purged(old(tree), baseDir, now - maxAge, faults, names)|
    {
      purged, r := 0, Ok;
      if readFails {
        r := Err(ReadDir);
        return;
      }
      hide PurgeTree, Purged, RemoveAll, Purges, Entries, Managed;
      ghost var before := tree;
      PurgeNothing(before, baseDir, now - maxAge, faults);
      var cutoff := now - maxAge;
      var entries := Entries(tree, baseDir);
      ghost var all, done := entries, {};
      while entries != {}
        invariant entries <= all && done == all - entries
        invariant tree == PurgeTree(before, baseDir, cutoff, faults, done)
        invariant purged == |Purged(before, baseDir, cutoff, faults, done)|
        decreases entries
      {
        ghost var _ := Member(entries);
        var name :| name in entries;
        PurgeOneMore(before, baseDir, cutoff, faults, done, name);
        PurgedOneMore(before, baseDir, cutoff, faults, done, name);
        EntryUntouched(before, baseDir, cutoff, faults, done, name);
        var fullPath := baseDir + [name];
        if tree[fullPath].Dir? && Managed(name) && name !in faults.noInfo && tree[fullPath].modTime < cutoff {
          tree := RemoveAll(tree, fullPath, faults.removals(name));
          if faults.removals(name).Gone? {
            purged := purged + 1;
          }
        }
        done, entries := done + {name}, entries - {name};
        assert done == all - entries;
      }
      assert done == all;
    }
  }

  lemma PurgeNothing(tree: Tree, base: Path, cutoff: int, faults: PurgeFaults)
    ensures PurgeTree(tree, base, cutoff, faults, {}) == tree
    ensures Purged(tree, base, cutoff, faults, {}) == {}
  {}

  /** The purge finds each entry as it was when the directory was read. */
  lemma EntryUntouched(tree: Tree, base: Path, cutoff: int, faults: PurgeFaults, names: set<string>, name: string)
    requires name in Entries(tree, base) && name !in names
    ensures var p, mid := base + [name], PurgeTree(tree, base, cutoff, faults, names);
      && p in tree && p in mid && mid[p] == tree[p]
      && (Purges(tree, base, cutoff, faults, name)
          <==> mid[p].Dir? && Managed(name) && name !in faults.noInfo && mid[p].modTime < cutoff)
  {
    var q :| q in tree && |q| == |base| + 1 && q[..|base|] == base && q[|base|] == name;
    assert q == base + [name];
  }

  /** With no failures a purge removes exactly the managed directories older than the cutoff,
      with all they hold, and returns how many there were. */
  lemma CleanPurge(tree: Tree, base: Path, cutoff: int, faults: PurgeFaults)
    requires faults.noInfo == {} && forall n :: faults.removals(n) == Gone
    ensures var names := Entries(tree, base);
      && Purged(tree, base, cutoff, faults, names) == (set n | n in names && Outdated(tree, base, cutoff, n))
      && forall k | k in tree ::
           k !in PurgeTree(tree, base, cutoff, faults, names)
           <==> |k| > |base| && base <= k && Outdated(tree, base, cutoff, k[|base|])
  {
    var names := Entries(tree, base);
    forall k | k in tree && |k| > |base| && base <= k && Outdated(tree, base, cutoff, k[|base|])
      ensures k[|base|] in names
    {
      assert base + [k[|base|]] in tree;
    }
  }

  /** Whatever fails: an outdated directory whose Info fails stays whole and is not counted, one that
      is removed goes whole and is counted, and of one whose removal stops there stays just what the
      removal leaves, with its parents, and it is not counted. */
  lemma PurgeWithFaults(tree: Tree, base: Path, cutoff: int, faults: PurgeFaults, name: string, k: Path)
    requires ManagedDir(tree, base, base + [name]) && k in tree && base + [name] <= k
    ensures var names, dir := Entries(tree, base), base + [name];
      var after, counted := PurgeTree(tree, base, cutoff, faults, names), Purged(tree, base, cutoff, faults, names);
      if tree[dir].modTime < cutoff && name !in faults.noInfo then
        match faults.removals(name)
        case Gone => k !in after && name in counted
        case Stuck(left) => (k in after <==> exists l <- left :: k <= l) && name !in counted
      else k in after && name !in counted
  {
    hide Managed;
    assert k[..|base|] == base && k[|base|] == name;
    assert base + [name] in tree;
  }

  /** A run of the manager. */
  datatype Op =
    | Create(uid: int, random: seq<bv8>, now: int, fails: bool)
    | CleanUp(cwd: Path, dir: string, removal: Removal)
    | Purge(cutoff: int, faults: PurgeFaults)
    | Write(path: Path, node: Node, now: int)
    | Erase(path: Path, now: int)

  predicate OpOk(op: Op) {
    (op.Create? ==> |op.random| == 8) && (op.CleanUp? ==> Clean(op.cwd))
  }

  predicate Creates(tree: Tree, base: Path, op: Op) {
    op.Create? && base + [DirName(op.uid, op.random)] !in tree && !op.fails
  }

  /** A place inside a managed directory, in a directory that exists. */
  predicate Inside(tree: Tree, base: Path, p: Path) {
    && |p| > |base| + 1 && ManagedDir(tree, base, p[..|base| + 1])
    && p[..|p| - 1] in tree && tree[p[..|p| - 1]].Dir?
  }

  /** A task can make files and directories inside a managed one, and write to files there; it
      does not turn a directory into something else. */
  predicate CanWrite(tree: Tree, base: Path, p: Path, node: Node) {
    Inside(tree, base, p) && (p in tree ==> (tree[p].Dir? <==> node.Dir?))
  }

  predicate CanErase(tree: Tree, base: Path, p: Path) {
    Inside(tree, base, p) && p in tree && !tree[p].Dir?
  }

  /** A task's write, and a task's removal of a file. A new or a gone entry changes the time of
      its directory. */
  function WriteTo(tree: Tree, base: Path, p: Path, node: Node, now: int): Tree {
    if !CanWrite(tree, base, p, node) then tree
    else if p in tree then tree[p := node]
    else tree[p[..|p| - 1] := Dir(now)][p := node]
  }

  function EraseAt(tree: Tree, base: Path, p: Path, now: int): Tree {
    if CanErase(tree, base, p) then tree[p[..|p| - 1] := Dir(now)] - {p} else tree
  }

  /** The tree after one operation: the manager's as the methods above leave it, and the writes of
      the tasks in their directories. */
  function Next(tree: Tree, base: Path, op: Op): Tree
    requires OpOk(op)
  {
    match op
    case Create(uid, random, now, _) =>
      if Creates(tree, base, op) then tree[base + [DirName(uid, random)] := Dir(now)] else tree
    case CleanUp(cwd, dir, removal) =>
      if ManagedDir(tree, base, Abs(cwd, dir)) then RemoveAll(tree, Abs(cwd, dir), removal) else tree
    case Purge(cutoff, faults) => PurgeTree(tree, base, cutoff, faults, Entries(tree, base))
    case Write(path, node, now) => WriteTo(tree, base, path, node, now)
    case Erase(path, now) => EraseAt(tree, base, path, now)
  }

  function After(tree: Tree, base: Path, ops: seq<Op>): Tree
    requires forall op <- ops :: OpOk(op)
    decreases |ops|
  {
    if ops == [] then tree else After(Next(tree, base, ops[0]), base, ops[1..])
  }

  /** The directory a path is in is there. */
  predicate HasParent(tree: Tree, k: Path) {
    k != [] && k[..|k| - 1] in tree && tree[k[..|k| - 1]].Dir?
  }

  /** Every node hangs below directories, and the base directory is there. */
  predicate WellFormed(tree: Tree, base: Path) {
    && base in tree && tree[base].Dir?
    && forall k {:trigger HasParent(tree, k)} | k in tree && k != [] :: HasParent(tree, k)
  }

  /** Not a managed directory, and not inside one. */
  predicate Protected(tree: Tree, base: Path, k: Path) {
    k in tree && (|k| > |base| ==> !ManagedDir(tree, base, k[..|base| + 1]))
  }

  lemma {:induction false} AncestorsExist(tree: Tree, base: Path, k: Path, n: nat)
    requires WellFormed(tree, base) && k in tree && n <= |k|
    ensures k[..n] in tree
    decreases |k|
  {
    if n < |k| {
      assert HasParent(tree, k) && k[..|k| - 1][..n] == k[..n];
      AncestorsExist(tree, base, k[..|k| - 1], n);
    } else {
      assert k[..n] == k;
    }
  }

  /** What is left of a removal is left with its parents. */
  lemma UpSurvives(up: Path, k: Path, p: Path, removal: Removal)
    requires k != [] && up == k[..|k| - 1]
    requires p <= k ==> removal.Stuck? && exists l <- removal.left :: k <= l
    ensures p <= up ==> removal.Stuck? && exists l <- removal.left :: up <= l
  {
    if p <= up {
      assert p <= k;
      var l :| l in removal.left && k <= l;
      assert up <= l;
    }
  }

  lemma RemovalWellFormed(tree: Tree, base: Path, p: Path, removal: Removal)
    requires WellFormed(tree, base) && !(p <= base)
    ensures WellFormed(RemoveAll(tree, p, removal), base)
  {
    var next := RemoveAll(tree, p, removal);
    forall k <- next | k != [] ensures HasParent(next, k) {
      assert k in tree ==> HasParent(tree, k);
      UpSurvives(k[..|k| - 1], k, p, removal);
    }
  }

  lemma PurgeWellFormed(tree: Tree, base: Path, cutoff: int, faults: PurgeFaults, names: set<string>)
    requires WellFormed(tree, base)
    ensures WellFormed(PurgeTree(tree, base, cutoff, faults, names), base)
  {
    hide Purges;
    var next := PurgeTree(tree, base, cutoff, faults, names);
    forall k <- next | k != [] ensures HasParent(next, k) {
      assert k in tree ==> HasParent(tree, k);
      var up := k[..|k| - 1];
      if |up| > |base| && base <= up {
        assert base <= k && k[|base|] == up[|base|];
        var removal := faults.removals(k[|base|]);
        if removal.Stuck? {
          forall l | l in removal.left && k <= l ensures up <= l {}
        }
      }
    }
  }

  lemma WriteWellFormed(tree: Tree, base: Path, p: Path, node: Node, now: int)
    requires WellFormed(tree, base)
    ensures WellFormed(WriteTo(tree, base, p, node, now), base)
  {
    hide ManagedDir;
    var next := WriteTo(tree, base, p, node, now);
    forall k <- next | k != [] ensures HasParent(next, k) {
      assert k in tree ==> HasParent(tree, k);
    }
  }

  lemma EraseWellFormed(tree: Tree, base: Path, p: Path, now: int)
    requires WellFormed(tree, base)
    ensures WellFormed(EraseAt(tree, base, p, now), base)
  {
    hide ManagedDir;
    var next := EraseAt(tree, base, p, now);
    forall k <- next | k != [] ensures HasParent(next, k) {
      assert k in tree ==> HasParent(tree, k);
    }
  }

  /** A protected path is neither the place a task writes to nor the directory it is in. */
  lemma WritesInside(tree: Tree, base: Path, p: Path, k: Path)
    requires Protected(tree, base, k) && Inside(tree, base, p)
    ensures k != p && k != p[..|p| - 1]
  {
    assert p[..|p| - 1][..|base| + 1] == p[..|base| + 1];
  }

  /** Paths other than a written one and its directory stay, and stay protected. */
  lemma ProtectedKept(tree: Tree, after: Tree, base: Path, p: Path, k: Path)
    requires WellFormed(tree, base) && Protected(tree, base, k) && Inside(tree, base, p)
    requires forall q | q in tree && q != p && q != p[..|p| - 1] :: q in after && after[q] == tree[q]
    requires p[..|p| - 1] in after && after[p[..|p| - 1]].Dir?
    ensures Protected(after, base, k) && after[k] == tree[k]
  {
    hide Managed;
    WritesInside(tree, base, p, k);
    if |k| > |base| {
      AncestorsExist(tree, base, k, |base| + 1);
      assert k[..|base| + 1] != p;
    }
  }

  lemma WriteProtects(tree: Tree, base: Path, p: Path, node: Node, now: int, k: Path)
    requires WellFormed(tree, base) && Protected(tree, base, k)
    ensures Protected(WriteTo(tree, base, p, node, now), base, k) && WriteTo(tree, base, p, node, now)[k] == tree[k]
  {
    hide WellFormed, ManagedDir, Protected;
    if CanWrite(tree, base, p, node) {
      assert |p[..|p| - 1]| != |p|;
      ProtectedKept(tree, WriteTo(tree, base, p, node, now), base, p, k);
    }
  }

  lemma EraseProtects(tree: Tree, base: Path, p: Path, now: int, k: Path)
    requires WellFormed(tree, base) && Protected(tree, base, k)
    ensures Protected(EraseAt(tree, base, p, now), base, k) && EraseAt(tree, base, p, now)[k] == tree[k]
  {
    hide WellFormed, ManagedDir, Protected;
    if CanErase(tree, base, p) {
      assert |p[..|p| - 1]| != |p|;
      ProtectedKept(tree, EraseAt(tree, base, p, now), base, p, k);
    }
  }

  lemma NextWellFormed(tree: Tree, base: Path, op: Op)
    requires WellFormed(tree, base) && OpOk(op)
    ensures WellFormed(Next(tree, base, op), base)
  {
    match op {
      case Create(uid, random, _, _) =>
        var dir, next := base + [DirName(uid, random)], Next(tree, base, op);
        assert dir[..|dir| - 1] == base;
        forall k <- next | k != [] ensures HasParent(next, k) {
          assert k in tree ==> HasParent(tree, k);
        }
      case CleanUp(cwd, dir, removal) =>
        if ManagedDir(tree, base, Abs(cwd, dir)) { RemovalWellFormed(tree, base, Abs(cwd, dir), removal); }
      case Purge(cutoff, faults) => PurgeWellFormed(tree, base, cutoff, faults, Entries(tree, base));
      case Write(path, node, now) => WriteWellFormed(tree, base, path, node, now);
      case Erase(path, now) => EraseWellFormed(tree, base, path, now);
    }
  }

  lemma StepProtects(tree: Tree, base: Path, op: Op, k: Path)
    requires WellFormed(tree, base) && OpOk(op) && Protected(tree, base, k)
    ensures Protected(Next(tree, base, op), base, k) && Next(tree, base, op)[k] == tree[k]
  {
    hide Abs, DirName, Managed;
    var next := Next(tree, base, op);
    match op {
      case Create(uid, random, _, _) =>
        if |k| > |base| { AncestorsExist(tree, base, k, |base| + 1); }
      case CleanUp(cwd, dir, _) =>
        var p := Abs(cwd, dir);
        assert p <= k ==> k[..|p|] == p;
      case Purge(cutoff, faults) =>
        if |k| > |base| && base <= k {
          assert base + [k[|base|]] == k[..|base| + 1];
        }
      case Write(path, node, now) => WriteProtects(tree, base, path, node, now, k);
      case Erase(path, now) => EraseProtects(tree, base, path, now, k);
    }
  }

  /** Main result: over every interleaving of create, clean, purge and the tasks' own writes, with
      any failures, a path that is not at or below a managed directory of the base is never changed
      or removed. */
  lemma {:induction false} OnlyManagedRemoved(tree: Tree, base: Path, ops: seq<Op>, k: Path)
    requires WellFormed(tree, base) && (forall op <- ops :: OpOk(op)) && Protected(tree, base, k)
    ensures k in After(tree, base, ops) && After(tree, base, ops)[k] == tree[k]
    decreases |ops|
  {
    if ops != [] {
      assert ops[0] in ops;
      NextWellFormed(tree, base, ops[0]);
      StepProtects(tree, base, ops[0], k);
      OnlyManagedRemoved(Next(tree, base, ops[0]), base, ops[1..], k);
    }
  }

  /** So a file or a link in the base directory stays as it is, whatever its name, and so does a
      directory whose name is not a managed one, with all it holds. */
  lemma OthersStay(tree: Tree, base: Path, ops: seq<Op>, name: string, k: Path)
    requires WellFormed(tree, base) && (forall op <- ops :: OpOk(op)) && base + [name] in tree
    requires !tree[base + [name]].Dir? || !Managed(name)
    requires k in tree && base + [name] <= k
    ensures k in After(tree, base, ops) && After(tree, base, ops)[k] == tree[k]
  {
    hide Managed;
    assert k[..|base| + 1] == base + [name];
    OnlyManagedRemoved(tree, base, ops, k);
  }

  lemma {:induction false} AfterOne(tree: Tree, base: Path, ops: seq<Op>, k: nat)
    requires (forall op <- ops :: OpOk(op)) && k < |ops|
    ensures After(tree, base, ops[..k + 1]) == Next(After(tree, base, ops[..k]), base, ops[k])
    decreases |ops|
  {
    assert ops[k] in ops && ops[0] in ops;
    if k == 0 {
      assert ops[..1] == [ops[0]] && ops[..0] == [];
      assert [ops[0]][1..] == [];
    } else {
      assert ops[..k + 1][1..] == ops[1..][..k] && ops[..k][1..] == ops[1..][..k - 1];
      AfterOne(Next(tree, base, ops[0]), base, ops[1..], k - 1);
    }
  }

  /** Main result: two tasks are only ever given the same directory if it was cleaned or purged
      in between; while it stands, creation is exclusive. */
  lemma {:induction false} NeverShared(tree: Tree, base: Path, ops: seq<Op>, i: nat, j: nat) returns (m: nat)
    requires (forall op <- ops :: OpOk(op)) && i < j < |ops|
    requires Creates(After(tree, base, ops[..i]), base, ops[i]) && Creates(After(tree, base, ops[..j]), base, ops[j])
    requires DirName(ops[i].uid, ops[i].random) == DirName(ops[j].uid, ops[j].random)
    ensures var dir := base + [DirName(ops[i].uid, ops[i].random)];
      && i < m < j && (ops[m].CleanUp? || ops[m].Purge?)
      && dir in After(tree, base, ops[..m]) && dir !in After(tree, base, ops[..m + 1])
  {
    hide DirName, ManagedDir, RemoveAll, PurgeTree;
    var dir := base + [DirName(ops[i].uid, ops[i].random)];
    AfterOne(tree, base, ops, i);
    m := i + 1;
    while m < j && dir in After(tree, base, ops[..m + 1])
      invariant i < m <= j && dir in After(tree, base, ops[..m])
    {
      m := m + 1;
    }
    AfterOne(tree, base, ops, m);
  }

  /** What CreateUserDir makes, CleanUserDir removes, exactly when the user is not negative. */
  lemma CreateThenClean(tree: Tree, base: Path, cwd: Path, uid: int, random: seq<bv8>, now: int)
    requires Clean(base) && Clean(cwd) && |random| == 8 && Creates(tree, base, Create(uid, random, now, false))
    ensures var dir := base + [DirName(uid, random)];
      var made := Next(tree, base, Create(uid, random, now, false));
      ManagedDir(made, base, Abs(cwd, Render(dir))) <==> uid >= 0
  {
    var name := DirName(uid, random);
    NameManagedIff(uid, random);
    assert Plain(name) by {
      assert forall i | 0 <= i < |name| :: name[i] != '/' by { NameHasNoSlash(uid, random); }
      assert |name| > 2;
    }
    AbsOfRender(cwd, base + [name]);
  }

  lemma NameHasNoSlash(uid: int, random: seq<bv8>)
    ensures '/' !in DirName(uid, random)
  {
    assert '/' !in Hex(random) && '/' !in Dec(if uid < 0 then -uid else uid);
  }

  /** An operation that leaves a directory used at `t` or later alone: a purge for older ones, a
      write at `t` or later, the clean-up of another directory. */
  predicate Spares(op: Op, dir: Path, t: int)
    requires OpOk(op)
  {
    match op
    case Create(_, _, _, _) => true
    case CleanUp(cwd, named, _) => Abs(cwd, named) != dir
    case Purge(cutoff, _) => cutoff <= t
    case Write(_, _, now) => now >= t
    case Erase(_, now) => now >= t
  }

  /** A managed directory whose time is `t` or later. */
  predicate InUse(tree: Tree, base: Path, dir: Path, t: int) {
    ManagedDir(tree, base, dir) && tree[dir].modTime >= t
  }

  lemma WriteKeepsInUse(tree: Tree, base: Path, op: Op, dir: Path, t: int)
    requires OpOk(op) && (op.Write? || op.Erase?) && op.now >= t && InUse(tree, base, dir, t)
    ensures InUse(Next(tree, base, op), base, dir, t)
  {
    hide Managed;
    assert |op.path| > |base| + 1 ==> op.path != dir;
  }

  lemma SparedStep(tree: Tree, base: Path, op: Op, dir: Path, t: int)
    requires OpOk(op) && Spares(op, dir, t) && InUse(tree, base, dir, t)
    ensures InUse(Next(tree, base, op), base, dir, t)
  {
    hide Abs, DirName, Managed;
    if op.Write? || op.Erase? {
      WriteKeepsInUse(tree, base, op, dir, t);
    } else if op.CleanUp? {
      var p := Abs(op.cwd, op.dir);
      assert |p| == |dir| && p <= dir ==> p == dir;
    } else if op.Purge? {
      assert base + [dir[|base|]] == dir;
    }
  }

  /** Main result: over every run whose purges go for older directories, whose writes come later
      and whose clean-ups name others, a directory in use stays. */
  lemma {:induction false} InUseStays(tree: Tree, base: Path, ops: seq<Op>, dir: Path, t: int)
    requires (forall op <- ops :: OpOk(op) && Spares(op, dir, t)) && InUse(tree, base, dir, t)
    ensures InUse(After(tree, base, ops), base, dir, t)
    decreases |ops|
  {
    if ops != [] {
      assert ops[0] in ops;
      SparedStep(tree, base, ops[0], dir, t);
      InUseStays(Next(tree, base, ops[0]), base, ops[1..], dir, t);
    }
  }

  /** The age the bot purges at, in nanoseconds. */
  const MAX_AGE: int := 24 * 3600 * 1_000_000_000

  /** A step of the bot taken within a day of `t` and not before it; the clean-up is another task's. */
  predicate WithinADay(op: Op, dir: Path, t: int)
    requires OpOk(op)
  {
    match op
    case Create(_, _, now, _) => t <= now <= t + MAX_AGE
    case CleanUp(cwd, named, _) => Abs(cwd, named) != dir
    case Purge(cutoff, _) => t <= cutoff + MAX_AGE <= t + MAX_AGE
    case Write(_, _, now) => t <= now <= t + MAX_AGE
    case Erase(_, now) => t <= now <= t + MAX_AGE
  }

  /** With the wired age, no purge takes a task's directory within a day of its creation. */
  lemma LiveForADay(tree: Tree, base: Path, uid: int, random: seq<bv8>, t: int, ops: seq<Op>)
    requires |random| == 8 && uid >= 0 && Creates(tree, base, Create(uid, random, t, false))
    requires var dir := base + [DirName(uid, random)]; forall op <- ops :: OpOk(op) && WithinADay(op, dir, t)
    ensures var made := Next(tree, base, Create(uid, random, t, false));
      InUse(After(made, base, ops), base, base + [DirName(uid, random)], t)
  {
    hide DirName, Managed;
    NameManagedIff(uid, random);
    InUseStays(Next(tree, base, Create(uid, random, t, false)), base, ops, base + [DirName(uid, random)], t);
  }

  /** After that a purge that meets no fault takes it exactly when nothing was written to the
      directory itself for longer than the age, whether its task still runs or not. */
  lemma PurgedIff(tree: Tree, base: Path, dir: Path, now: int, faults: PurgeFaults)
    requires ManagedDir(tree, base, dir) && faults.noInfo == {} && forall n :: faults.removals(n) == Gone
    ensures dir !in Next(tree, base, Purge(now - MAX_AGE, faults)) <==> now - tree[dir].modTime > 86_400_000_000_000
  {
    hide Managed;
    CleanPurge(tree, base, now - MAX_AGE, faults);
    assert base + [dir[|base|]] == dir;
  }
}
