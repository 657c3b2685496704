/** Slash-separated paths, as path/filepath treats them on Unix. A clean absolute path
    is the sequence of its components. */
module Paths {

  type Path = seq<string>

  /** A component that stands for itself. */
  predicate Plain(c: string) {
    c != "" && c != "." && c != ".." && '/' !in c
  }

  predicate Clean(p: Path) {
    forall c <- p :: Plain(c)
  }

  /** The parts of a text between its slashes. */
  function Split(s: string): (parts: seq<string>)
    ensures |parts| > 0 && forall c <- parts :: '/' !in c
  {
    if s == "" then [""]
    else
      var rest := Split(s[1..]);
      if s[0] == '/' then [""] + rest else [[s[0]] + rest[0]] + rest[1..]
  }

  /** Components joined by slashes. */
  function Joined(parts: seq<string>): string {
    if parts == [] then ""
    else if |parts| == 1 then parts[0]
    else parts[0] + "/" + Joined(parts[1..])
  }

  function Render(p: Path): string {
    "/" + Joined(p)
  }

  /** filepath.Clean on a rooted path: no empty parts, no dots, no climbing above the root. */
  function Resolve(parts: seq<string>): (p: Path)
    requires forall c <- parts :: '/' !in c
    ensures Clean(p)
  {
    if parts == [] then []
    else
      var p, c := Resolve(parts[..|parts| - 1]), parts[|parts| - 1];
      if c == "" || c == "." then p
      else if c == ".." then (if p == [] then [] else p[..|p| - 1])
      else p + [c]
  }

  /** filepath.Abs. */
  function Abs(cwd: Path, input: string): (p: Path)
    requires Clean(cwd)
    ensures Clean(p)
  {
    if input != "" && input[0] == '/' then Resolve(Split(input)) else Resolve(cwd + Split(input))
  }

  /** How many leading components two paths share. */
  function Shared(a: Path, b: Path): (n: nat)
    ensures n <= |a| && n <= |b|
    ensures a[..n] == b[..n]
    ensures n < |a| && n < |b| ==> a[n] != b[n]
  {
    if a == [] || b == [] || a[0] != b[0] then 0
    else
      var n := Shared(a[1..], b[1..]);
      assert a[..n + 1] == [a[0]] + a[1..][..n] && b[..n + 1] == [b[0]] + b[1..][..n];
      n + 1
  }

  /** filepath.Rel for two clean absolute paths. */
  function Rel(base: Path, target: Path): string {
    var n := Shared(base, target);
    var steps := seq(|base| - n, _ => "..") + target[n..];
    if steps == [] then "." else Joined(steps)
  }

  /** The relative path climbs out of the base: it is "..", or starts with "../". */
  predicate Escapes(rel: string) {
    rel == ".." || (|rel| >= 3 && rel[..3] == "../")
  }

  lemma JoinedFirst(parts: seq<string>)
    requires parts != []
    ensures Joined(parts) == parts[0]
      || (|Joined(parts)| > |parts[0]| && Joined(parts)[..|parts[0]| + 1] == parts[0] + "/")
    ensures Joined(parts) == parts[0] ==> |parts| == 1 || parts[0] + "/" + Joined(parts[1..]) == parts[0]
  {}

  /** The text test on the relative path is exact: it rejects what is not below the base,
      and nothing else, names that merely begin with two dots included. */
  lemma EscapesIffOutside(base: Path, target: Path)
    requires Clean(base) && Clean(target)
    ensures Escapes(Rel(base, target)) <==> !(base <= target)
  {
    var n := Shared(base, target);
    var steps := seq(|base| - n, _ => "..") + target[n..];
    if base <= target {
      assert forall k | 0 <= k < |base| :: base[k] == target[k];
      assert steps == target[n..];
      if steps != [] {
        var c := steps[0];
        assert c == target[n] && Plain(c);
        JoinedFirst(steps);
        PlainDoesNotEscape(c, Joined(steps));
      }
    } else {
      assert base[..|base|] == base;
      assert steps[0] == "..";
      JoinedFirst(steps);
    }
  }

  lemma PlainDoesNotEscape(c: string, text: string)
    requires Plain(c) && (text == c || (|text| > |c| && text[..|c| + 1] == c + "/"))
    ensures !Escapes(text)
  {
    assert |text| >= 3 ==> text[..3][0] == text[0] && text[..3][1] == text[1] && text[..3][2] == text[2];
    assert forall i | 0 <= i < |c| :: text[i] == if text == c then c[i] else text[..|c| + 1][i];
    assert text != c ==> text[|c|] == text[..|c| + 1][|c|] == '/';
    assert |c| == 1 && c[0] == '.' ==> c == ".";
    assert |c| == 2 && c[0] == '.' && c[1] == '.' ==> c == "..";
  }

  lemma {:induction false} SplitAtSlash(a: string, b: string)
    ensures Split(a + "/" + b) == Split(a) + Split(b)
  {
    if a == "" {
      assert a + "/" + b == "/" + b && ("/" + b)[1..] == b;
    } else {
      assert (a + "/" + b)[1..] == a[1..] + "/" + b;
      SplitAtSlash(a[1..], b);
    }
  }

  /** Lengthening the last part, and putting a part or some text before the first. */
  function LongerLast(parts: seq<string>, t: string): seq<string>
    requires parts != []
  {
    parts[..|parts| - 1] + [parts[|parts| - 1] + t]
  }

  lemma TailAfter(first: string, parts: seq<string>, t: string)
    requires parts != []
    ensures LongerLast([first] + parts, t) == [first] + LongerLast(parts, t)
  {
    assert ([first] + parts)[..|parts|] == [first] + parts[..|parts| - 1];
  }

  lemma TailWithin(first: string, parts: seq<string>, t: string)
    requires parts != []
    ensures var more := LongerLast(parts, t);
      LongerLast([first + parts[0]] + parts[1..], t) == [first + more[0]] + more[1..]
  {
    var n := |parts| - 1;
    var all, more := [first + parts[0]] + parts[1..], LongerLast(parts, t);
    if n == 0 {
      assert all == [first + parts[0]] && (first + parts[0]) + t == first + (parts[0] + t);
      assert all[..0] == [] && more == [parts[0] + t] && more[1..] == [];
    } else {
      assert all[n] == parts[n] && all[..n] == [first + parts[0]] + parts[1..n];
      assert more[0] == parts[0] && more[1..] == parts[1..n] + [parts[n] + t];
    }
  }

  /** Text without slashes only lengthens the last part. */
  lemma {:induction false} SplitTail(a: string, t: string)
    requires '/' !in t
    ensures Split(a + t) == LongerLast(Split(a), t)
  {
    if a != "" {
      assert (a + t)[1..] == a[1..] + t && (a + t)[0] == a[0];
      SplitTail(a[1..], t);
      if a[0] == '/' {
        TailAfter("", Split(a[1..]), t);
      } else {
        TailWithin([a[0]], Split(a[1..]), t);
      }
    } else {
      assert a + t == t;
      SplitPlain(t);
    }
  }

  lemma {:induction false} SplitPlain(t: string)
    requires '/' !in t
    ensures Split(t) == [t]
  {
    if t != "" {
      assert t[0] in t && [t[0]] + t[1..] == t;
      SplitPlain(t[1..]);
    }
  }

  lemma {:induction false} SplitJoined(parts: seq<string>)
    requires parts != [] && forall c <- parts :: '/' !in c
    ensures Split(Joined(parts)) == parts
  {
    if |parts| == 1 {
      SplitPlain(parts[0]);
    } else {
      SplitAtSlash(parts[0], Joined(parts[1..]));
      SplitPlain(parts[0]);
      SplitJoined(parts[1..]);
    }
  }

  lemma {:induction false} ResolveRooted(p: Path)
    requires Clean(p)
    ensures Resolve([""] + p) == p
  {
    if p == [] {
      assert [""][..0] == [];
    } else {
      var n := |p| - 1;
      assert ([""] + p)[..n + 1] == [""] + p[..n] && ([""] + p)[n + 1] == p[n];
      assert p[n] in p && p[..n] + [p[n]] == p;
      ResolveRooted(p[..n]);
    }
  }

  /** Reading back a printed path gives the path, from any working directory. */
  lemma AbsOfRender(cwd: Path, p: Path)
    requires Clean(cwd) && Clean(p)
    ensures Abs(cwd, Render(p)) == p
  {
    assert "" + "/" + Joined(p) == Render(p);
    SplitAtSlash("", Joined(p));
    if p == [] {
      assert [""] + [""] == ["", ""] && ["", ""][..1] == [""] && [""][..0] == [];
    } else {
      SplitJoined(p);
      ResolveRooted(p);
    }
  }

  lemma ResolveMore(parts: seq<string>, c: string)
    requires (forall p <- parts :: '/' !in p) && '/' !in c
    ensures Resolve(parts + [c]) ==
      if c == "" || c == "." then Resolve(parts)
      else if c == ".." then (if Resolve(parts) == [] then [] else Resolve(parts)[..|Resolve(parts)| - 1])
      else Resolve(parts) + [c]
  {
    assert (parts + [c])[..|parts|] == parts;
  }

  /** One more element on a path: a name goes down, ".." goes up and stops at the root, "." and a
      doubled slash stay. */
  lemma AbsMore(cwd: Path, dir: string, c: string)
    requires Clean(cwd) && dir != "" && '/' !in c
    ensures var p, q := Abs(cwd, dir), Abs(cwd, dir + "/" + c);
      && (c == "" || c == "." ==> q == p)
      && (c == ".." ==> q == if p == [] then [] else p[..|p| - 1])
      && (Plain(c) ==> q == p + [c])
  {
    assert (dir + "/" + c)[0] == dir[0];
    SplitAtSlash(dir, c);
    SplitPlain(c);
    if dir[0] == '/' {
      ResolveMore(Split(dir), c);
    } else {
      ResolveMore(cwd + Split(dir), c);
      assert (cwd + Split(dir)) + [c] == cwd + (Split(dir) + [c]);
    }
  }

  lemma {:induction false} ResolveClean(p: Path)
    requires Clean(p)
    ensures Resolve(p) == p
  {
    if p != [] {
      var n := |p| - 1;
      assert p[n] in p && p[..n] + [p[n]] == p;
      ResolveClean(p[..n]);
    }
  }

  /** A path of one element: a name in the working directory, its parent, or the directory itself. */
  lemma AbsOne(cwd: Path, c: string)
    requires Clean(cwd) && '/' !in c
    ensures Plain(c) ==> Abs(cwd, c) == cwd + [c]
    ensures c == ".." ==> Abs(cwd, c) == if cwd == [] then [] else cwd[..|cwd| - 1]
    ensures c == "" || c == "." ==> Abs(cwd, c) == cwd
  {
    SplitPlain(c);
    ResolveMore(cwd, c);
    ResolveClean(cwd);
  }

  /** Leaving a directory by ".." and naming another is outside of it. */
  lemma SideStep(cwd: Path, base: Path, c: string)
    requires Clean(cwd) && Clean(base) && base != [] && Plain(c)
    ensures Abs(cwd, Render(base) + "/.." + "/" + c) == base[..|base| - 1] + [c]
    ensures base <= Abs(cwd, Render(base) + "/.." + "/" + c) <==> c == base[|base| - 1]
  {
    AbsOfRender(cwd, base);
    AbsMore(cwd, Render(base), "..");
    assert Render(base) + "/.." == Render(base) + "/" + "..";
    AbsMore(cwd, Render(base) + "/..", c);
    var q := base[..|base| - 1] + [c];
    assert base == base[..|base| - 1] + [base[|base| - 1]];
    assert base <= q ==> q[|base| - 1] == base[|base| - 1];
  }
}
