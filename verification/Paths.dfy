/**
 Lexical path handling of the sandboxed filesystem: `unsafePath` and
 `unsafeIsPathInsideOfBase` (fs_unix.go), `splitPath` and `endsWithDot` (path_unix.go).

 The code works on strings.  The meaning is given on component lists: a cleaned path is a list of
 proper components, and the string tests of the code are shown to decide exactly the component
 level questions.  `Clean` and `JoinPath` state what Go's path/filepath does to rooted paths.
 */
module Paths {
  import opened Prelude

  type Name = string
  type Path = seq<Name>

  // ---- Go's strings and path/filepath, on rooted paths ----

  function HasPrefix(s: string, prefix: string): bool {
    prefix <= s
  }

  function TrimPrefix(s: string, prefix: string): string {
    if prefix <= s then s[|prefix|..] else s
  }

  function TrimSuffix(s: string, suffix: string): string {
    if |suffix| <= |s| && s[|s| - |suffix|..] == suffix then s[..|s| - |suffix|] else s
  }

  /** The pieces of `s` between slashes. */
  function Split(s: string): (cs: seq<string>)
    ensures |cs| >= 1
  {
    if s == "" then [""]
    else
      Push(s[0], Split(s[1..]))
  }

  function Push(c: char, cs: seq<string>): (r: seq<string>)
    requires cs != []
    ensures r != []
  {
    if c == '/' then [""] + cs else [[c] + cs[0]] + cs[1..]
  }

  function Join(cs: seq<string>): string {
    if cs == [] then ""
    else if |cs| == 1 then cs[0]
    else cs[0] + "/" + Join(cs[1..])
  }

  /** Lexical normalisation of a rooted path: walk `cs` starting from the directory `at`. */
  function Normal(cs: seq<string>, at: Path): Path {
    if cs == [] then at
    else if cs[0] == "" || cs[0] == "." then Normal(cs[1..], at)
    else if cs[0] == ".." then Normal(cs[1..], if at == [] then [] else at[..|at| - 1])
    else Normal(cs[1..], at + [cs[0]])
  }

  /** filepath.Clean on a path that starts with a slash. */
  function Clean(s: string): string {
    "/" + Join(Normal(Split(s), []))
  }

  /** filepath.Join of a rooted directory and one more element. */
  function JoinPath(dir: string, elem: string): string {
    if elem == "" then Clean(dir) else Clean(dir + "/" + elem)
  }

  // ---- Vocabulary of the statements ----

  predicate Proper(c: string) {
    c != "" && c != "." && c != ".." && '/' !in c
  }

  predicate CleanPath(cs: Path) {
    forall i :: 0 <= i < |cs| ==> Proper(cs[i])
  }

  /** The absolute path whose components are `cs`. */
  function Absolute(cs: Path): string {
    "/" + Join(cs)
  }

  /** How the code writes a path below the base: "." for the base itself. */
  function Relative(cs: Path): string {
    if cs == [] then "." else Join(cs)
  }

  // ---- fs_unix.go ----

  function IsPathInsideOfBase(base: string, path: string): bool {
    HasPrefix(TrimSuffix(path, "/") + "/", base + "/")
  }

  function UnsafePath(base: string, path: string): Result<string, Errno> {
    var r := Clean(JoinPath(base, TrimPrefix(path, base)));
    if IsPathInsideOfBase(base, r) then
      var rel := TrimPrefix(TrimPrefix(r, base), "/");
      if rel == "" then Success(".") else Success(rel)
    else
      Failure(EBADPATH)
  }

  // ---- path_unix.go ----

  function EndsWithDot(path: string): bool {
    path == "." || (|path| >= 2 && path[|path| - 1] == '.' && path[|path| - 2] == '/')
  }

  /** `s` with all but one of its leading slashes removed. */
  function Squeezed(s: string): (r: string)
    ensures |r| > 1 ==> r[0] != '/' || r[1] != '/'
  {
    if |s| > 1 && s[0] == '/' && s[1] == '/' then Squeezed(s[1..]) else s
  }

  /** `s` without its trailing slashes. */
  function Stripped(s: string): (r: string)
    ensures |r| > 1 ==> r[|r| - 1] != '/'
    ensures r <= s
  {
    if |s| > 1 && s[|s| - 1] == '/' then Stripped(s[..|s| - 1]) else s
  }

  /** Only slashes are taken away, and one of them stays when there was one. */
  lemma {:induction false} SqueezedMeaning(s: string)
    ensures var r := Squeezed(s);
            && |r| <= |s| && s[|s| - |r|..] == r && (|r| < |s| ==> r != "" && r[0] == '/')
            && forall i :: 0 <= i < |s| - |r| ==> s[i] == '/'
  {
    if |s| > 1 && s[0] == '/' && s[1] == '/' {
      SqueezedMeaning(s[1..]);
      var r := Squeezed(s);
      assert s[|s| - |r|..] == s[1..][|s| - 1 - |r|..];
      assert forall i :: 0 < i < |s| - |r| ==> s[i] == s[1..][i - 1];
    }
  }

  lemma {:induction false} StrippedMeaning(s: string)
    ensures var r := Stripped(s);
            r <= s && (r == "" <==> s == "") && forall i :: |r| <= i < |s| ==> s[i] == '/'
    decreases |s|
  {
    if |s| > 1 && s[|s| - 1] == '/' {
      StrippedMeaning(s[..|s| - 1]);
      assert forall i :: |Stripped(s)| <= i < |s| - 1 ==> s[i] == s[..|s| - 1][i];
    }
  }

  /** The split of `core` at its last slash; without one the directory is ".". */
  ghost predicate SplitsAt(core: string, dirname: string, basename: string) {
    if |core| <= 1 || '/' !in core then dirname == "." && basename == core
    else
      && dirname != "" && basename != "" && '/' !in basename
      && core == dirname + (if dirname == "/" then "" else "/") + basename
  }

  /** `splitPath`: superfluous slashes at both ends aside, the split is at the last slash. */
  method SplitPath(name: string) returns (dirname: string, basename: string)
    ensures SplitsAt(Stripped(Squeezed(name)), dirname, basename)
  {
    dirname := ".";
    var path := name;
    while |path| > 1 && path[0] == '/' && path[1] == '/'
      invariant Squeezed(path) == Squeezed(name)
    {
      path := path[1..];
    }
    var i := |path| - 1;
    while i > 0 && path[i] == '/'
      invariant i == |path| - 1 && Stripped(path) == Stripped(Squeezed(name))
    {
      path := path[..i];
      i := i - 1;
    }
    assert path == Stripped(Squeezed(name));
    basename := path;
    i := i - 1;
    while i >= 0
      invariant -2 <= i < |path|
      invariant dirname == "." && basename == path
      invariant forall k :: 0 <= k && i < k < |path| ==> path[k] != '/' || |path| == 1
    {
      if path[i] == '/' {
        dirname := if i == 0 then path[..1] else path[..i];
        basename := path[i + 1..];
        LastSlashSplits(path, i);
        break;
      }
      i := i - 1;
    }
  }

  lemma LastSlashSplits(path: string, i: nat)
    requires i < |path| - 1 && path[i] == '/' && (path[0] != '/' || path[1] != '/')
    requires forall k :: i < k < |path| ==> path[k] != '/'
    ensures SplitsAt(path, if i == 0 then path[..1] else path[..i], path[i + 1..])
  {
  }

  /** For a cleaned relative path the split is "parent directory, last component". */
  lemma SplitOfClean(cs: Path, dirname: string, basename: string)
    requires cs != [] && CleanPath(cs) && SplitsAt(Stripped(Squeezed(Join(cs))), dirname, basename)
    ensures dirname == Relative(cs[..|cs| - 1]) && basename == cs[|cs| - 1]
  {
    var name := Join(cs);
    JoinEnds(cs);
    assert Proper(cs[0]) && Proper(cs[|cs| - 1]);
    assert Stripped(Squeezed(name)) == name;
    if |cs| > 1 {
      JoinLast(cs);
      var parent := Join(cs[..|cs| - 1]);
      assert name[|parent|] == '/';
      assert dirname != "/";
      LastSlash(dirname, basename, parent, cs[|cs| - 1]);
    }
  }

  // ---- Joining and splitting ----

  lemma {:induction false} SplitNoSlash(s: string)
    requires '/' !in s
    ensures Split(s) == [s]
  {
    if s != "" {
      SplitNoSlash(s[1..]);
      assert s == [s[0]] + s[1..];
    }
  }

  lemma {:induction false} SplitConcat(a: string, b: string)
    ensures Split(a + "/" + b) == Split(a) + Split(b)
  {
    if a == "" {
      assert (a + "/" + b)[1..] == b;
    } else {
      SplitConcat(a[1..], b);
      assert (a + "/" + b)[1..] == a[1..] + "/" + b;
      PushConcat(a[0], Split(a[1..]), Split(b));
    }
  }

  lemma PushConcat(c: char, l: seq<string>, r: seq<string>)
    requires l != []
    ensures Push(c, l + r) == Push(c, l) + r
  {
    assert (l + r)[1..] == l[1..] + r;
  }

  lemma SplitProper(cs: Path, i: nat)
    requires CleanPath(cs) && i < |cs|
    ensures Split(cs[i]) == [cs[i]]
  {
    assert Proper(cs[i]);
    SplitNoSlash(cs[i]);
  }

  lemma {:induction false} SplitJoin(cs: Path)
    requires cs != [] && CleanPath(cs)
    ensures Split(Join(cs)) == cs
  {
    SplitProper(cs, 0);
    if |cs| > 1 {
      SplitJoin(cs[1..]);
      SplitConcat(cs[0], Join(cs[1..]));
      assert Split(Join(cs)) == [cs[0]] + cs[1..];
    }
  }

  lemma {:induction false} JoinConcat(a: Path, b: Path)
    requires a != [] && b != []
    ensures Join(a + b) == Join(a) + "/" + Join(b)
  {
    if |a| == 1 {
      assert (a + b)[1..] == b;
    } else {
      assert (a + b)[1..] == a[1..] + b;
      JoinConcat(a[1..], b);
      assert Join(a + b) == a[0] + "/" + (Join(a[1..]) + "/" + Join(b));
    }
  }

  lemma JoinLast(cs: Path)
    requires |cs| > 1
    ensures Join(cs) == Join(cs[..|cs| - 1]) + "/" + cs[|cs| - 1]
  {
    assert cs == cs[..|cs| - 1] + [cs[|cs| - 1]];
    JoinConcat(cs[..|cs| - 1], [cs[|cs| - 1]]);
  }

  /** A cleaned relative path is not empty and neither starts nor ends with a slash. */
  lemma JoinEnds(cs: Path)
    requires cs != [] && CleanPath(cs)
    ensures Join(cs) != "" && Join(cs)[0] != '/' && Join(cs)[|Join(cs)| - 1] != '/'
  {
    assert Proper(cs[0]) && Proper(cs[|cs| - 1]);
    assert cs[0][0] in cs[0];
    var last := cs[|cs| - 1];
    assert last[|last| - 1] in last;
    if |cs| > 1 {
      JoinLast(cs);
    }
  }

  lemma LastSlash(a: string, b: string, c: string, d: string)
    requires a + "/" + b == c + "/" + d
    requires '/' !in b && '/' !in d
    ensures a == c && b == d
  {
    var s := a + "/" + b;
    assert s == c + "/" + d;
    assert s[|a|] == '/' && s[|c|] == '/';
    assert forall k | |a| < k < |s| :: s[k] == b[k - |a| - 1];
    assert forall k | |c| < k < |s| :: s[k] == d[k - |c| - 1];
    assert a == s[..|a|] && c == s[..|c|];
    assert b == s[|a| + 1..] && d == s[|c| + 1..];
  }

  lemma {:induction false} SplitPieces(s: string)
    ensures forall i :: 0 <= i < |Split(s)| ==> '/' !in Split(s)[i]
  {
    if s != "" {
      SplitPieces(s[1..]);
    }
  }

  // ---- Normalisation ----

  lemma {:induction false} NormalConcat(a: seq<string>, b: seq<string>, at: Path)
    ensures Normal(a + b, at) == Normal(b, Normal(a, at))
  {
    if a == [] {
      assert a + b == b;
    } else {
      assert (a + b)[1..] == a[1..] + b;
      NormalConcat(a[1..], b, at);
      NormalConcat(a[1..], b, if at == [] then [] else at[..|at| - 1]);
      NormalConcat(a[1..], b, at + [a[0]]);
    }
  }

  lemma {:induction false} NormalOfClean(cs: Path, at: Path)
    requires CleanPath(cs)
    ensures Normal(cs, at) == at + cs
  {
    if cs != [] {
      assert Proper(cs[0]);
      NormalOfClean(cs[1..], at + [cs[0]]);
      assert at + [cs[0]] + cs[1..] == at + cs;
    }
  }

  lemma {:induction false} NormalIsClean(cs: seq<string>, at: Path)
    requires CleanPath(at) && forall i :: 0 <= i < |cs| ==> '/' !in cs[i]
    ensures CleanPath(Normal(cs, at))
  {
    if cs != [] {
      if cs[0] == "" || cs[0] == "." {
        NormalIsClean(cs[1..], at);
      } else if cs[0] == ".." {
        NormalIsClean(cs[1..], if at == [] then [] else at[..|at| - 1]);
      } else {
        assert Proper(cs[0]);
        NormalIsClean(cs[1..], at + [cs[0]]);
      }
    }
  }

  lemma NormalOfAbsolute(cs: Path)
    requires CleanPath(cs)
    ensures Normal(Split(Absolute(cs)), []) == cs
  {
    SplitConcat("", Join(cs));
    assert "" + "/" + Join(cs) == Absolute(cs);
    assert Split(Absolute(cs)) == [""] + Split(Join(cs));
    assert ([""] + Split(Join(cs)))[1..] == Split(Join(cs));
    if cs == [] {
      assert Normal([""], []) == Normal([], []);
    } else {
      SplitJoin(cs);
      NormalOfClean(cs, []);
      assert [] + cs == cs;
    }
  }

  /** Cleaning a path that continues a clean directory walks on from that directory. */
  lemma CleanBelow(cs: Path, elem: string)
    requires CleanPath(cs)
    ensures Clean(Absolute(cs)) == Absolute(cs)
    ensures Clean(Absolute(cs) + "/" + elem) == Absolute(Normal(Split(elem), cs))
  {
    var abs := Absolute(cs);
    NormalOfAbsolute(cs);
    SplitConcat(abs, elem);
    NormalConcat(Split(abs), Split(elem), []);
  }

  // ---- The prefix test of the code decides the component prefix ----

  /** Every component followed by a slash. */
  function Trail(cs: Path): string {
    if cs == [] then "" else cs[0] + "/" + Trail(cs[1..])
  }

  lemma {:induction false} TrailIsJoin(cs: Path)
    requires cs != []
    ensures Trail(cs) == Join(cs) + "/"
  {
    if |cs| > 1 {
      TrailIsJoin(cs[1..]);
      assert cs[0] + "/" + (Join(cs[1..]) + "/") == (cs[0] + "/" + Join(cs[1..])) + "/";
    }
  }

  lemma FirstSlash(a: string, x: string, b: string, y: string)
    requires '/' !in a && '/' !in b
    requires a + "/" + x <= b + "/" + y
    ensures a == b && x <= y
  {
    var s, t := a + "/" + x, b + "/" + y;
    assert s[|a|] == '/' && t[|a|] == '/';
    assert forall k | 0 <= k < |b| :: t[k] == b[k];
    assert |a| >= |b|;
    assert t[|b|] == '/';
    assert |b| < |s| ==> s[|b|] == t[|b|];
    assert forall k | 0 <= k < |a| :: s[k] == a[k];
    assert |a| == |b|;
    assert a == s[..|a|] && b == t[..|a|];
    assert x == s[|a| + 1..] && y == t[|a| + 1..];
  }

  lemma {:induction false} TrailPrefix(b: Path, t: Path)
    requires CleanPath(b) && CleanPath(t)
    ensures Trail(b) <= Trail(t) <==> b <= t
  {
    if b != [] {
      assert Proper(b[0]);
      if t == [] {
        assert |Trail(b)| > 0;
      } else {
        assert Proper(t[0]);
        TrailPrefix(b[1..], t[1..]);
        assert b == [b[0]] + b[1..] && t == [t[0]] + t[1..];
        if Trail(b) <= Trail(t) {
          FirstSlash(b[0], Trail(b[1..]), t[0], Trail(t[1..]));
        }
        if b <= t {
          assert b[0] == t[0] && b[1..] <= t[1..];
        }
      }
    }
  }

  lemma InsideIsPrefix(base: Path, target: Path)
    requires base != [] && CleanPath(base) && CleanPath(target)
    ensures IsPathInsideOfBase(Absolute(base), Absolute(target)) <==> base <= target
  {
    TrailIsJoin(base);
    TrailPrefix(base, target);
    assert Absolute(base) + "/" == "/" + Trail(base);
    var s := Absolute(target);
    if target == [] {
      assert TrimSuffix(s, "/") + "/" == "/" + Trail(target);
    } else {
      TrailIsJoin(target);
      JoinEnds(target);
      assert s[|s| - 1] != '/';
      assert s[|s| - 1..] == [s[|s| - 1]];
      assert TrimSuffix(s, "/") + "/" == "/" + Trail(target);
    }
    if Trail(base) <= Trail(target) {
      assert "/" + Trail(base) <= "/" + Trail(target);
    }
    if "/" + Trail(base) <= "/" + Trail(target) {
      assert Trail(base) == ("/" + Trail(base))[1..] <= ("/" + Trail(target))[1..] == Trail(target);
    }
  }

  lemma TrimBase(base: Path, rel: Path)
    requires base != [] && CleanPath(base) && CleanPath(rel)
    ensures TrimPrefix(TrimPrefix(Absolute(base + rel), Absolute(base)), "/") == Join(rel)
  {
    if rel == [] {
      assert base + rel == base;
      TrimPrefixOf(Absolute(base), "");
    } else {
      JoinConcat(base, rel);
      Regrouped("/", Join(base), "/" + Join(rel));
      TrimPrefixOf(Absolute(base), "/" + Join(rel));
      TrimPrefixOf("/", Join(rel));
    }
  }

  lemma TrimPrefixOf(prefix: string, rest: string)
    ensures TrimPrefix(prefix + rest, prefix) == rest
  {
  }

  lemma Regrouped(a: string, b: string, c: string)
    ensures a + (b + c) == (a + b) + c
  {
  }

  // ---- Main results ----

  /** The directory a caller's path denotes, found by walking its pieces from the base. */
  function Target(base: Path, path: string): Path {
    Normal(Split(TrimPrefix(path, Absolute(base))), base)
  }

  /**
   `unsafePath` succeeds exactly when the normalised path stays below the base, and then returns the
   remaining components, "." for the base itself.
   */
  lemma UnsafePathMeaning(base: Path, path: string)
    requires base != [] && CleanPath(base)
    ensures CleanPath(Target(base, path))
    ensures UnsafePath(Absolute(base), path).Success? <==> base <= Target(base, path)
    ensures base <= Target(base, path) ==>
              UnsafePath(Absolute(base), path) == Success(Relative(Target(base, path)[|base|..]))
  {
    var rest := TrimPrefix(path, Absolute(base));
    var target := Target(base, path);
    SplitPieces(rest);
    NormalIsClean(Split(rest), base);
    CleanBelow(base, rest);
    CleanBelow(target, "");
    assert Clean(JoinPath(Absolute(base), rest)) == Absolute(target) by {
      if rest == "" {
        assert Normal(Split(rest), base) == base;
      }
    }
    InsideIsPrefix(base, target);
    if base <= target {
      TrimTarget(base, target);
    }
  }

  lemma TrimTarget(base: Path, target: Path)
    requires base != [] && CleanPath(base) && CleanPath(target) && base <= target
    ensures var r := TrimPrefix(TrimPrefix(Absolute(target), Absolute(base)), "/");
            (if r == "" then "." else r) == Relative(target[|base|..])
  {
    var rel := target[|base|..];
    assert target == base + rel;
    TrimBase(base, rel);
    if rel != [] {
      JoinEnds(rel);
    }
  }

  /** A path that already is a result is returned unchanged, with or without the base in front. */
  lemma UnsafePathInverts(base: Path, rel: Path)
    requires base != [] && CleanPath(base) && CleanPath(rel)
    ensures UnsafePath(Absolute(base), Relative(rel)) == Success(Relative(rel))
    ensures UnsafePath(Absolute(base), Absolute(base) + "/" + Join(rel)) == Success(Relative(rel))
    ensures UnsafePath(Absolute(base), Absolute(base)) == Success(".")
  {
    TargetOfRelative(base, rel);
    TargetOfJoined(base, rel);
    UnsafePathMeaning(base, Relative(rel));
    UnsafePathMeaning(base, Absolute(base) + "/" + Join(rel));
    UnsafePathMeaning(base, Absolute(base));
    assert (base + rel)[|base|..] == rel;
  }

  lemma TargetOfRelative(base: Path, rel: Path)
    requires base != [] && CleanPath(base) && CleanPath(rel)
    ensures Target(base, Relative(rel)) == base + rel
  {
    if rel == [] {
      SplitNoSlash(".");
      assert Normal(["."], base) == Normal([], base);
    } else {
      JoinEnds(rel);
      SplitJoin(rel);
      NormalOfClean(rel, base);
    }
  }

  lemma TargetOfJoined(base: Path, rel: Path)
    requires base != [] && CleanPath(base) && CleanPath(rel)
    ensures Target(base, Absolute(base) + "/" + Join(rel)) == base + rel
    ensures Target(base, Absolute(base)) == base
  {
    var b := Absolute(base);
    assert TrimPrefix(b, b) == "";
    assert Normal([""], base) == Normal([], base);
    assert TrimPrefix(b + "/" + Join(rel), b) == "/" + Join(rel);
    SplitConcat("", Join(rel));
    assert "" + "/" + Join(rel) == "/" + Join(rel);
    assert Split("/" + Join(rel)) == [""] + Split(Join(rel));
    assert ([""] + Split(Join(rel)))[1..] == Split(Join(rel));
    if rel != [] {
      SplitJoin(rel);
      NormalOfClean(rel, base);
    }
  }

  lemma UnsafePathIdempotent(base: Path, path: string)
    requires base != [] && CleanPath(base)
    ensures var r := UnsafePath(Absolute(base), path);
            r.Success? ==> UnsafePath(Absolute(base), r.value) == r
  {
    UnsafePathMeaning(base, path);
    var target := Target(base, path);
    if base <= target {
      assert CleanPath(target[|base|..]);
      UnsafePathInverts(base, target[|base|..]);
    }
  }

  // ---- Dots and slashes ----

  lemma TargetBelow(base: Path, rel: Path, tail: string)
    requires base != [] && CleanPath(base) && rel != [] && CleanPath(rel)
    ensures Target(base, Join(rel) + "/" + tail) == Normal(Split(tail), base + rel)
  {
    JoinEnds(rel);
    assert (Join(rel) + "/" + tail)[0] == Join(rel)[0];
    SplitConcat(Join(rel), tail);
    SplitJoin(rel);
    NormalConcat(rel, Split(tail), base);
    NormalOfClean(rel, base);
  }

  /** Paths with the same target have the same result. */
  lemma SameTarget(base: Path, path: string, path': string)
    requires base != [] && CleanPath(base) && Target(base, path) == Target(base, path')
    ensures UnsafePath(Absolute(base), path) == UnsafePath(Absolute(base), path')
  {
    UnsafePathMeaning(base, path);
    UnsafePathMeaning(base, path');
    LocateIsClean(base, path);
    LocateIsClean(base, path');
  }

  lemma TargetParent(base: Path, rel: Path)
    requires base != [] && CleanPath(base) && CleanPath(rel)
    ensures Target(base, Relative(rel) + "/" + "..") == if rel == [] then base[..|base| - 1] else base + rel[..|rel| - 1]
  {
    SplitNoSlash("..");
    if rel == [] {
      SplitConcat(".", "..");
      SplitNoSlash(".");
      assert Normal([".", ".."], base) == Normal([".."], base) == Normal([], base[..|base| - 1]);
    } else {
      TargetBelow(base, rel, "..");
      assert Normal([".."], base + rel) == Normal([], (base + rel)[..|base + rel| - 1]);
      assert (base + rel)[..|base + rel| - 1] == base + rel[..|rel| - 1];
    }
  }

  /** ".." leads to the parent, and out of the base nowhere. */
  lemma UnsafePathParent(base: Path, rel: Path)
    requires base != [] && CleanPath(base) && CleanPath(rel)
    ensures UnsafePath(Absolute(base), Relative(rel) + "/..") ==
              if rel == [] then Failure(EBADPATH) else Success(Relative(rel[..|rel| - 1]))
  {
    var path := Relative(rel) + "/" + "..";
    ParentSpelled(Relative(rel));
    TargetParent(base, rel);
    UnsafePathMeaning(base, path);
    LocateIsClean(base, path);
    if rel != [] {
      assert (base + rel[..|rel| - 1])[|base|..] == rel[..|rel| - 1];
    }
  }

  lemma ParentSpelled(dir: string)
    ensures dir + "/" + ".." == dir + "/.."
  {
  }

  lemma BackPieces(n: string, tail: string, at: Path)
    requires Proper(n)
    ensures Normal(Split(n + "/" + (".." + "/" + tail)), at) == Normal(Split(tail), at)
  {
    SplitNoSlash(n);
    SplitNoSlash("..");
    SplitConcat(n, ".." + "/" + tail);
    SplitConcat("..", tail);
    NormalConcat([n], [".."] + Split(tail), at);
    NormalConcat([".."], Split(tail), at + [n]);
    assert Normal([n], at) == Normal([], at + [n]);
    assert Normal([".."], at + [n]) == Normal([], (at + [n])[..|at|]);
    assert (at + [n])[..|at|] == at;
  }

  lemma StayPieces(dot: string, tail: string, at: Path)
    requires dot == "" || dot == "."
    ensures Normal(Split(dot + "/" + tail), at) == Normal(Split(tail), at)
  {
    SplitNoSlash(dot);
    SplitConcat(dot, tail);
    NormalConcat([dot], Split(tail), at);
    assert Normal([dot], at) == Normal([], at);
  }

  lemma SameBelow(base: Path, rel: Path, a: string, b: string)
    requires base != [] && CleanPath(base) && rel != [] && CleanPath(rel)
    requires Normal(Split(a), base + rel) == Normal(Split(b), base + rel)
    ensures UnsafePath(Absolute(base), Join(rel) + "/" + a) == UnsafePath(Absolute(base), Join(rel) + "/" + b)
  {
    TargetBelow(base, rel, a);
    TargetBelow(base, rel, b);
    SameTarget(base, Join(rel) + "/" + a, Join(rel) + "/" + b);
  }

  lemma BackSpelled(dir: string, n: string, tail: string)
    ensures dir + "/" + n + "/../" + tail == dir + "/" + (n + "/" + (".." + "/" + tail))
  {
    assert "/" + (".." + ("/" + tail)) == "/../" + tail;
  }

  lemma StaySpelled(dir: string, tail: string)
    ensures dir + "/./" + tail == dir + "/" + ("." + "/" + tail)
    ensures dir + "//" + tail == dir + "/" + ("" + "/" + tail)
  {
  }

  /** A component followed by ".." has no effect. */
  lemma UnsafePathBack(base: Path, rel: Path, n: string, tail: string)
    requires base != [] && CleanPath(base) && rel != [] && CleanPath(rel) && Proper(n)
    ensures UnsafePath(Absolute(base), Join(rel) + "/" + n + "/../" + tail) == UnsafePath(Absolute(base), Join(rel) + "/" + tail)
  {
    BackPieces(n, tail, base + rel);
    SameBelow(base, rel, n + "/" + (".." + "/" + tail), tail);
    BackSpelled(Join(rel), n, tail);
  }

  /** Neither has "." or a second slash. */
  lemma UnsafePathStay(base: Path, rel: Path, tail: string)
    requires base != [] && CleanPath(base) && rel != [] && CleanPath(rel)
    ensures UnsafePath(Absolute(base), Join(rel) + "/./" + tail) == UnsafePath(Absolute(base), Join(rel) + "/" + tail)
    ensures UnsafePath(Absolute(base), Join(rel) + "//" + tail) == UnsafePath(Absolute(base), Join(rel) + "/" + tail)
  {
    StayPieces("", tail, base + rel);
    StayPieces(".", tail, base + rel);
    SameBelow(base, rel, "" + "/" + tail, tail);
    SameBelow(base, rel, "." + "/" + tail, tail);
    StaySpelled(Join(rel), tail);
  }

  /** The same right below the base. */
  lemma UnsafePathBackToBase(base: Path, n: string, tail: string)
    requires base != [] && CleanPath(base) && Proper(n)
    ensures UnsafePath(Absolute(base), n + "/../" + tail) == UnsafePath(Absolute(base), "./" + tail)
  {
    var back, stay := n + "/" + (".." + "/" + tail), "." + "/" + tail;
    BackPieces(n, tail, base);
    StayPieces(".", tail, base);
    assert n[0] in n && back[0] == n[0] && stay[0] == '.';
    SameTarget(base, back, stay);
    BackToBaseSpelled(n, tail);
  }

  lemma BackToBaseSpelled(n: string, tail: string)
    ensures n + "/../" + tail == n + "/" + (".." + "/" + tail) && "./" + tail == "." + "/" + tail
  {
  }

  /** "../" as often as `k` says. */
  function Ups(k: nat): string {
    if k == 0 then "" else "../" + Ups(k - 1)
  }

  /** A path that climbs `k` levels is rejected unless it comes back to the base. */
  lemma UnsafePathAbove(base: Path, rel: Path, k: nat)
    requires base != [] && CleanPath(base) && rel != [] && CleanPath(rel)
    ensures var n := Min(k, |base|);
            UnsafePath(Absolute(base), Ups(k) + Join(rel)) ==
              if base[|base| - n..] <= rel then Success(Relative(rel[n..])) else Failure(EBADPATH)
  {
    var path, n := Ups(k) + Join(rel), Min(k, |base|);
    TargetAbove(base, rel, k);
    UnsafePathMeaning(base, path);
    LocateIsClean(base, path);
    BackInBase(base, rel, n);
  }

  lemma TargetAbove(base: Path, rel: Path, k: nat)
    requires base != [] && CleanPath(base) && rel != [] && CleanPath(rel)
    ensures Target(base, Ups(k) + Join(rel)) == base[..|base| - Min(k, |base|)] + rel
  {
    JoinEnds(rel);
    assert (Ups(k) + Join(rel))[0] == if k == 0 then Join(rel)[0] else '.';
    NormalOfUps(k, Join(rel), base);
    SplitJoin(rel);
    NormalOfClean(rel, base[..|base| - Min(k, |base|)]);
  }

  lemma {:induction false} NormalOfUps(k: nat, tail: string, at: Path)
    ensures Normal(Split(Ups(k) + tail), at) == Normal(Split(tail), at[..|at| - Min(k, |at|)])
  {
    if k == 0 {
      assert Ups(0) + tail == tail && at[..|at|] == at;
    } else {
      var up := if at == [] then [] else at[..|at| - 1];
      UpsSpelled(k, tail);
      NormalOfUp(Ups(k - 1) + tail, at);
      NormalOfUps(k - 1, tail, up);
      assert up[..|up| - Min(k - 1, |up|)] == at[..|at| - Min(k, |at|)];
    }
  }

  lemma NormalOfUp(tail: string, at: Path)
    ensures Normal(Split(".." + "/" + tail), at) == Normal(Split(tail), if at == [] then [] else at[..|at| - 1])
  {
    SplitNoSlash("..");
    SplitConcat("..", tail);
    NormalConcat([".."], Split(tail), at);
    assert Normal([".."], at) == Normal([], if at == [] then [] else at[..|at| - 1]);
  }

  lemma UpsSpelled(k: nat, tail: string)
    requires k > 0
    ensures Ups(k) + tail == ".." + "/" + (Ups(k - 1) + tail)
  {
    assert "../" == ".." + "/";
  }

  lemma BackInBase(base: Path, rel: Path, n: nat)
    requires n <= |base|
    ensures base <= base[..|base| - n] + rel <==> base[|base| - n..] <= rel
    ensures base <= base[..|base| - n] + rel ==> (base[..|base| - n] + rel)[|base|..] == rel[n..]
  {
    var above, rest := base[..|base| - n], base[|base| - n..];
    assert base == above + rest;
    if base <= above + rel {
      assert rel[..n] == (above + rel)[|above|..|base|] == rest;
    }
    if rest <= rel {
      assert above + rel == base + rel[n..];
    }
  }

  /** The components a caller's path denotes below the base. */
  function Locate(base: Path, path: string): Result<Path, Errno> {
    match UnsafePath(Absolute(base), path)
    case Failure(e) => Failure(e)
    case Success(rel) => Success(if rel == "." then [] else Split(rel))
  }

  lemma LocateIsClean(base: Path, path: string)
    requires base != [] && CleanPath(base)
    ensures var r := Locate(base, path);
            r.Success? ==> CleanPath(r.value) && UnsafePath(Absolute(base), path) == Success(Relative(r.value))
    ensures Locate(base, path).Failure? <==> UnsafePath(Absolute(base), path).Failure?
    ensures Locate(base, path).Failure? ==> Locate(base, path) == Failure(EBADPATH)
  {
    UnsafePathMeaning(base, path);
    var target := Target(base, path);
    if base <= target {
      var rel := target[|base|..];
      assert CleanPath(rel);
      if rel != [] {
        CleanIsNoDot(rel);
        SplitJoin(rel);
      }
    }
  }

  lemma LocateInverts(base: Path, cs: Path)
    requires base != [] && CleanPath(base) && CleanPath(cs)
    ensures Locate(base, Relative(cs)) == Success(cs)
  {
    UnsafePathInverts(base, cs);
    if cs != [] {
      CleanIsNoDot(cs);
      SplitJoin(cs);
    }
  }

  lemma LocateWhole(base: Path, cs: Path)
    requires base != [] && CleanPath(base) && cs != [] && CleanPath(cs)
    ensures Locate(base, Join(cs)) == Success(cs)
  {
    LocateInverts(base, cs);
  }

  lemma InitIsClean(cs: Path)
    requires cs != [] && CleanPath(cs)
    ensures CleanPath(cs[..|cs| - 1]) && cs[..|cs| - 1] + [cs[|cs| - 1]] == cs
  {
  }

  lemma CleanIsNoDot(cs: Path)
    requires cs != [] && CleanPath(cs)
    ensures Join(cs) != "" && Join(cs) != "." && !EndsWithDot(Join(cs))
  {
    var last := cs[|cs| - 1];
    assert Proper(last);
    JoinEnds(cs);
    if |cs| > 1 {
      JoinLast(cs);
      var init := Join(cs[..|cs| - 1]);
      assert Join(cs)[|Join(cs)| - |last|..] == last;
      if |last| == 1 {
        assert last == [last[0]];
      } else {
        assert Join(cs)[|Join(cs)| - 2] == last[|last| - 2];
      }
    } else {
      assert forall i :: 0 <= i < |last| ==> last[i] in last;
    }
  }
}
