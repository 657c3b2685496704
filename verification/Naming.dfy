/** Names of downloaded, converted and archive files of a sticker set
    (internal/command/download.go, internal/sticker/util.go). */
module Naming {
  import opened Text
  import opened Paths

  /** filepath.Ext: from the last dot of the last element, or nothing. */
  function Ext(s: string): string {
    if s == "" || s[|s| - 1] == '/' then ""
    else if s[|s| - 1] == '.' then "."
    else
      var e := Ext(s[..|s| - 1]);
      if e == "" then "" else e + [s[|s| - 1]]
  }

  function TrimSlashes(s: string): string {
    if s != "" && s[|s| - 1] == '/' then TrimSlashes(s[..|s| - 1]) else s
  }

  /** path.Base: the last element of a slash-separated text, trailing slashes aside. */
  function LastElement(s: string): string {
    var t := TrimSlashes(s);
    if s == "" then "." else if t == "" then "/" else Split(t)[|Split(t)| - 1]
  }

  /** What may follow a number in a file name: nothing, or a dot and no slash. */
  predicate Suffix(e: string) {
    e == "" || (e[0] == '.' && '/' !in e)
  }

  lemma {:induction false} ExtIsSuffix(s: string)
    ensures Suffix(Ext(s))
  {
    if s != "" && s[|s| - 1] != '/' && s[|s| - 1] != '.' {
      ExtIsSuffix(s[..|s| - 1]);
    }
  }

  /** filepath.Join of a clean directory and a name. */
  function Join(dir: Path, name: string): (p: Path)
    requires Clean(dir)
    ensures Clean(p)
  {
    Resolve(dir + Split(name))
  }

  /** The last element of a set name, which Telegram gives and may contain anything. */
  function Tail(setID: string): string {
    Split(setID)[|Split(setID)| - 1]
  }

  /** The directory all files of a set end up in. */
  function SetDir(dir: Path, setID: string): (p: Path)
    requires Clean(dir)
    ensures Clean(p)
  {
    Resolve(dir + Split(setID)[..|Split(setID)| - 1])
  }

  /** downloadTelegramFile's local path for sticker `idx` of a set. */
  function DownloadPath(dir: Path, setID: string, idx: nat, remote: string): (p: Path)
    requires Clean(dir)
    ensures Clean(p)
  {
    Join(dir, setID + "_" + Dec(idx + 1) + Ext(LastElement(remote)))
  }

  /** What the conversion of a file is called: itself, or itself with a suffix. */
  datatype Conversion = Original | Gif | Png

  function ConversionSuffix(c: Conversion): (e: string)
    ensures Suffix(e)
  {
    match c
    case Original => ""
    case Gif => ".gif"
    case Png => ".png"
  }

  function ConvertedPath(p: Path, c: Conversion): Path
    requires p != []
  {
    p[|p| - 1 := p[|p| - 1] + ConversionSuffix(c)]
  }

  /** The two archives of a set. */
  datatype Kind = Originals | Converted

  function KindWord(kind: Kind): string {
    if kind == Originals then "_original" else "_converted"
  }

  function ArchivePath(dir: Path, setID: string, kind: Kind): (p: Path)
    requires Clean(dir)
    ensures Clean(p)
  {
    Join(dir, setID + (KindWord(kind) + ".zip"))
  }

  /** strings.TrimSuffix. */
  function TrimSuffix(s: string, suffix: string): string {
    if |suffix| <= |s| && s[|s| - |suffix|..] == suffix then s[..|s| - |suffix|] else s
  }

  /** The name of volume `k` of `n`. */
  function VolumeName(basename: string, n: nat, k: nat): string {
    if n == 1 then basename else TrimSuffix(basename, ".zip") + "_00" + Dec(k + 1) + ".zip"
  }

  function VolumePath(f: Path, n: nat, k: nat): Path
    requires f != []
  {
    f[|f| - 1 := VolumeName(f[|f| - 1], n, k)]
  }

  /** filepath.Base. */
  function Base(p: Path): string {
    if p == [] then "/" else p[|p| - 1]
  }

  /** Joining a name that ends in text of its own: the set's directory, then one element. */
  lemma JoinTail(dir: Path, setID: string, t: string)
    requires Clean(dir) && '/' !in t && t != "" && t[0] == '_'
    ensures Join(dir, setID + t) == SetDir(dir, setID) + [Tail(setID) + t]
  {
    SplitTail(setID, t);
    var parts, n := Split(setID), |Split(setID)| - 1;
    var last := parts[n] + t;
    assert last[|parts[n]|] == '_';
    assert dir + (parts[..n] + [last]) == (dir + parts[..n]) + [last];
    assert ((dir + parts[..n]) + [last])[..|dir| + n] == dir + parts[..n];
  }

  /** A file of a set: sticker `idx`, fetched from `remote`, converted by `c`. */
  function SetFile(dir: Path, setID: string, idx: nat, remote: string, c: Conversion): (p: Path)
    requires Clean(dir)
    ensures p != []
  {
    DownloadBase(dir, setID, idx, remote);
    ConvertedPath(DownloadPath(dir, setID, idx, remote), c)
  }

  lemma DownloadBase(dir: Path, setID: string, idx: nat, remote: string)
    requires Clean(dir)
    ensures DownloadPath(dir, setID, idx, remote)
         == SetDir(dir, setID) + [Tail(setID) + ("_" + Dec(idx + 1) + Ext(LastElement(remote)))]
  {
    ExtIsSuffix(LastElement(remote));
    assert '/' !in Dec(idx + 1);
    var t := "_" + Dec(idx + 1) + Ext(LastElement(remote));
    assert setID + "_" + Dec(idx + 1) + Ext(LastElement(remote)) == setID + t;
    JoinTail(dir, setID, t);
  }

  /** Every file of a set is the set's name, an underscore, its number, and a suffix. */
  lemma SetFileBase(dir: Path, setID: string, idx: nat, remote: string, c: Conversion) returns (e: string)
    requires Clean(dir)
    ensures EndsNumber(e)
    ensures SetFile(dir, setID, idx, remote, c) == SetDir(dir, setID) + [Tail(setID) + ("_" + (Dec(idx + 1) + e))]
  {
    hide Ext, LastElement, Dec, SetDir, Tail, DownloadPath;
    var ext, suffix := Ext(LastElement(remote)), ConversionSuffix(c);
    ExtIsSuffix(LastElement(remote));
    DownloadBase(dir, setID, idx, remote);
    e := ext + suffix;
    Regroup(Tail(setID), "_", Dec(idx + 1), ext, suffix);
    LastLengthened(SetDir(dir, setID), Tail(setID) + ("_" + Dec(idx + 1) + ext), suffix);
    assert ext != "" ==> e[0] == ext[0];
  }

  lemma LastLengthened(dir: Path, name: string, suffix: string)
    ensures (dir + [name])[|dir + [name]| - 1 := name + suffix] == dir + [name + suffix]
  {}

  /** Main result: files of different stickers never share a base name. */
  lemma SetNamesDistinct(dir: Path, setID: string, i: nat, ri: string, ci: Conversion,
                         j: nat, rj: string, cj: Conversion)
    requires Clean(dir) && i != j
    ensures Base(SetFile(dir, setID, i, ri, ci)) != Base(SetFile(dir, setID, j, rj, cj))
  {
    var a := SetFileBase(dir, setID, i, ri, ci);
    var b := SetFileBase(dir, setID, j, rj, cj);
    var x, y := "_" + (Dec(i + 1) + a), "_" + (Dec(j + 1) + b);
    if Tail(setID) + x == Tail(setID) + y {
      Cancel(Tail(setID), x, y);
      Cancel("_", Dec(i + 1) + a, Dec(j + 1) + b);
      DecPrefixInjective(i + 1, a, j + 1, b);
      assert false;
    }
  }

  lemma Regroup(a: string, b: string, c: string, d: string, e: string)
    ensures a + (b + c + d) + e == a + (b + (c + (d + e)))
  {}

  lemma Cancel(p: string, x: string, y: string)
    requires p + x == p + y
    ensures x == y
  {
    assert (p + x)[|p|..] == x && (p + y)[|p|..] == y;
  }

  /** The name of an archive volume, after the set's name. */
  function ArchiveTail(kind: Kind, n: nat, k: nat): string {
    KindWord(kind) + (if n == 1 then ".zip" else "_00" + Dec(k + 1) + ".zip")
  }

  lemma TrimZip(s: string)
    ensures TrimSuffix(s + ".zip", ".zip") == s
  {
    assert (s + ".zip")[|s|..] == ".zip" && (s + ".zip")[..|s|] == s;
  }

  lemma VolumeNameOf(tail: string, kind: Kind, n: nat, k: nat)
    ensures VolumeName(tail + (KindWord(kind) + ".zip"), n, k) == tail + ArchiveTail(kind, n, k)
  {
    hide KindWord, Dec, TrimSuffix;
    var word := KindWord(kind);
    assert tail + (word + ".zip") == (tail + word) + ".zip";
    TrimZip(tail + word);
    assert (tail + word) + "_00" + Dec(k + 1) + ".zip" == tail + (word + ("_00" + Dec(k + 1) + ".zip"));
  }

  lemma VolumeBase(dir: Path, setID: string, kind: Kind, n: nat, k: nat)
    requires Clean(dir)
    ensures ArchivePath(dir, setID, kind) != []
    ensures VolumePath(ArchivePath(dir, setID, kind), n, k)
         == SetDir(dir, setID) + [Tail(setID) + ArchiveTail(kind, n, k)]
  {
    hide VolumeName, ArchiveTail, Join, SetDir, Tail;
    var t := KindWord(kind) + ".zip";
    JoinTail(dir, setID, t);
    VolumeNameOf(Tail(setID), kind, n, k);
  }

  lemma SecondChar(kind: Kind, n: nat, k: nat)
    ensures |ArchiveTail(kind, n, k)| > 1
    ensures ArchiveTail(kind, n, k)[1] == if kind == Originals then 'o' else 'c'
  {
    hide Dec;
    assert KindWord(kind)[1] == if kind == Originals then 'o' else 'c';
  }

  /** Main result: no archive of a set overwrites a file of the set. */
  lemma ArchiveIsNoFile(dir: Path, setID: string, kind: Kind, n: nat, k: nat, i: nat, remote: string, c: Conversion)
    requires Clean(dir)
    ensures ArchivePath(dir, setID, kind) != []
    ensures VolumePath(ArchivePath(dir, setID, kind), n, k) != SetFile(dir, setID, i, remote, c)
  {
    hide ArchiveTail, Join, SetDir, Tail, VolumePath, ArchivePath, SetFile, Dec;
    VolumeBase(dir, setID, kind, n, k);
    var e := SetFileBase(dir, setID, i, remote, c);
    var x, y := ArchiveTail(kind, n, k), "_" + (Dec(i + 1) + e);
    SecondChar(kind, n, k);
    assert y[1] == Dec(i + 1)[0] && Dec(i + 1)[0] in Dec(i + 1);
    LastDiffers(SetDir(dir, setID), Tail(setID), x, y);
  }

  lemma LastDiffers(dir: Path, tail: string, x: string, y: string)
    requires x != y
    ensures dir + [tail + x] != dir + [tail + y]
  {
    assert (dir + [tail + x])[|dir|] == tail + x && (dir + [tail + y])[|dir|] == tail + y;
    if tail + x == tail + y { Cancel(tail, x, y); assert false; }
  }

  /** The volumes of one archive have different names. */
  lemma VolumeNamesDistinct(basename: string, n: nat, j: nat, k: nat)
    requires j < k < n
    ensures VolumeName(basename, n, j) != VolumeName(basename, n, k)
  {
    hide Dec, TrimSuffix;
    var p := TrimSuffix(basename, ".zip") + "_00";
    if VolumeName(basename, n, j) == VolumeName(basename, n, k) {
      assert p + (Dec(j + 1) + ".zip") == p + Dec(j + 1) + ".zip";
      assert p + (Dec(k + 1) + ".zip") == p + Dec(k + 1) + ".zip";
      Cancel(p, Dec(j + 1) + ".zip", Dec(k + 1) + ".zip");
      DecPrefixInjective(j + 1, ".zip", k + 1, ".zip");
      assert false;
    }
  }

  /** The two archives of a set never share a volume. */
  lemma ArchivesDiffer(dir: Path, setID: string, n: nat, j: nat, m: nat, k: nat)
    requires Clean(dir)
    ensures ArchivePath(dir, setID, Originals) != [] && ArchivePath(dir, setID, Converted) != []
    ensures VolumePath(ArchivePath(dir, setID, Originals), n, j) != VolumePath(ArchivePath(dir, setID, Converted), m, k)
  {
    hide ArchiveTail, Join, SetDir, Tail, VolumePath, ArchivePath;
    VolumeBase(dir, setID, Originals, n, j);
    VolumeBase(dir, setID, Converted, m, k);
    var x, y := ArchiveTail(Originals, n, j), ArchiveTail(Converted, m, k);
    SecondChar(Originals, n, j);
    SecondChar(Converted, m, k);
    LastDiffers(SetDir(dir, setID), Tail(setID), x, y);
  }

  /** The GIF of a downloaded animation, and the archive it is put in. */
  function AnimationPath(dir: Path, remote: string): (p: Path)
    requires Clean(dir)
    ensures p != []
  {
    ExtIsSuffix(LastElement(remote));
    JoinLast(dir, "animation_MP4" + Ext(LastElement(remote)));
    ConvertedPath(Join(dir, "animation_MP4" + Ext(LastElement(remote))), Gif)
  }

  function AnimationArchive(dir: Path, random: seq<bv8>): (p: Path)
    requires Clean(dir)
  {
    Join(dir, Hex(random) + ".zip")
  }

  lemma JoinLast(dir: Path, name: string)
    requires Clean(dir) && '/' !in name && |name| > 2
    ensures Join(dir, name) != [] && Base(Join(dir, name)) == name
  {
    SplitPlain(name);
    assert (dir + [name])[..|dir|] == dir;
  }

  /** The archive of an animation does not overwrite the animation. */
  lemma AnimationArchiveApart(dir: Path, random: seq<bv8>, remote: string)
    requires Clean(dir)
    ensures AnimationArchive(dir, random) != AnimationPath(dir, remote)
  {
    hide Ext, LastElement, Hex, Join;
    ExtIsSuffix(LastElement(remote));
    var name := "animation_MP4" + Ext(LastElement(remote));
    JoinLast(dir, name);
    JoinLast(dir, Hex(random) + ".zip");
    assert Base(AnimationPath(dir, remote)) == name + ".gif";
    assert (name + ".gif")[|name| + 3] == 'f' && (Hex(random) + ".zip")[|Hex(random)| + 3] == 'p';
  }

  lemma {:induction false} ExtOfDotted(stem: string, e: string)
    requires '.' !in e && '/' !in e
    ensures Ext(stem + "." + e) == "." + e
    decreases |e|
  {
    var s := stem + "." + e;
    if e != "" {
      var n := |e| - 1;
      assert s[..|s| - 1] == stem + "." + e[..n] && s[|s| - 1] == e[n] && e[n] in e;
      ExtOfDotted(stem, e[..n]);
      assert "." + e[..n] + [e[n]] == "." + e;
    }
  }

  lemma {:induction false} ExtOfPlain(dir: string, name: string)
    requires '.' !in name && '/' !in name && (dir == "" || dir[|dir| - 1] == '/')
    ensures Ext(dir + name) == ""
    decreases |name|
  {
    var s := dir + name;
    if name != "" {
      var n := |name| - 1;
      assert s[..|s| - 1] == dir + name[..n] && s[|s| - 1] == name[n] && name[n] in name;
      ExtOfPlain(dir, name[..n]);
    } else {
      assert s == dir;
    }
  }

  /** The extension is what follows the last dot of the last element, dot included, or nothing. */
  lemma ExtIs(dir: string, stem: string, e: string)
    requires '.' !in e && '/' !in e && (dir == "" || dir[|dir| - 1] == '/')
    ensures Ext(dir + stem + "." + e) == "." + e && Ext(dir + e) == ""
  {
    ExtOfDotted(dir + stem, e);
    ExtOfPlain(dir, e);
  }

  lemma NoSlashEnd(name: string)
    requires '/' !in name
    ensures TrimSlashes(name) == name
  {
    if name != "" { assert name[|name| - 1] in name; }
  }

  /** The last element of a path is what follows its last slash. */
  lemma LastElementIs(dir: string, name: string)
    requires name != "" && '/' !in name
    ensures LastElement(dir + "/" + name) == name && LastElement(name) == name
  {
    var s := dir + "/" + name;
    assert s[|s| - 1] == name[|name| - 1] && name[|name| - 1] in name;
    assert TrimSlashes(s) == s;
    NoSlashEnd(name);
    SplitAtSlash(dir, name);
    SplitPlain(name);
  }

  lemma JoinPlain(dir: Path, name: string)
    requires Clean(dir) && Plain(name)
    ensures Join(dir, name) == dir + [name]
  {
    SplitPlain(name);
    ResolveMore(dir, name);
    ResolveClean(dir);
  }

  /** The names of a set's files: set name, underscore, number from one, extension of the remote
      file; and after a conversion ".gif" or ".png". */
  lemma FileNames(dir: Path, setID: string, idx: nat, at: string, stem: string, e: string)
    requires Clean(dir) && Plain(setID) && '.' !in e && '/' !in e && '/' !in stem
    ensures var name := setID + "_" + Dec(idx + 1) + ("." + e); var remote := at + "/" + stem + "." + e;
      && SetFile(dir, setID, idx, remote, Original) == dir + [name]
      && SetFile(dir, setID, idx, remote, Gif) == dir + [name + ".gif"]
      && SetFile(dir, setID, idx, remote, Png) == dir + [name + ".png"]
  {
    hide Ext, LastElement, Join, TrimSlashes;
    var remote, file := at + "/" + stem + "." + e, stem + "." + e;
    assert remote == at + "/" + file && '/' !in file;
    LastElementIs(at, file);
    ExtIs("", stem, e);
    assert "" + stem + "." + e == file;
    var name := setID + "_" + Dec(idx + 1) + ("." + e);
    assert '/' !in Dec(idx + 1);
    assert |name| > 2;
    JoinPlain(dir, name);
    LastReplaced(dir, name, ".gif");
    LastReplaced(dir, name, ".png");
    LastReplaced(dir, name, "");
  }

  lemma LastReplaced(dir: Path, name: string, suffix: string)
    ensures (dir + [name])[|dir + [name]| - 1 := (dir + [name])[|dir + [name]| - 1] + suffix] == dir + [name + suffix]
    ensures name + "" == name
  {}

  lemma ArchiveName(dir: Path, setID: string, kind: Kind, n: nat, k: nat)
    requires Clean(dir) && Plain(setID)
    ensures ArchivePath(dir, setID, kind) != []
    ensures VolumePath(ArchivePath(dir, setID, kind), n, k) == dir + [setID + ArchiveTail(kind, n, k)]
  {
    hide ArchiveTail, VolumePath, ArchivePath;
    VolumeBase(dir, setID, kind, n, k);
    SplitPlain(setID);
    assert dir + [setID][..0] == dir;
    ResolveClean(dir);
  }

  lemma TailIs(kind: Kind, n: nat, number: string)
    ensures KindWord(kind) + ".zip" == if kind == Originals then "_original.zip" else "_converted.zip"
    ensures KindWord(kind) + ("_00" + number + ".zip")
         == if kind == Originals then "_original_00" + number + ".zip" else "_converted_00" + number + ".zip"
  {
    assert "_original" + ("_00" + number + ".zip") == "_original_00" + number + ".zip";
    assert "_converted" + ("_00" + number + ".zip") == "_converted_00" + number + ".zip";
  }

  /** The names of a set's archives: one, or numbered from one with two zeros in front. */
  lemma ArchiveNames(dir: Path, setID: string, kind: Kind, n: nat, k: nat)
    requires Clean(dir) && Plain(setID)
    ensures ArchivePath(dir, setID, kind) != []
    ensures VolumePath(ArchivePath(dir, setID, kind), n, k) == dir + [setID + (
      if kind == Originals then (if n == 1 then "_original.zip" else "_original_00" + Dec(k + 1) + ".zip")
      else (if n == 1 then "_converted.zip" else "_converted_00" + Dec(k + 1) + ".zip"))]
  {
    hide VolumePath, ArchivePath, Dec, KindWord;
    ArchiveName(dir, setID, kind, n, k);
    TailIs(kind, n, Dec(k + 1));
  }
}
