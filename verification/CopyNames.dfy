/**
 The name `Copy` gives to the duplicate of a file (`Ext` and `findCopySuffix`, filesystem.go).
 */
module CopyNames {
  import opened Paths
  import opened Tree

  /** filepath.Ext of a name without slashes: from the last dot on. */
  function FileExt(n: string): string {
    if n == "" then ""
    else if FileExt(n[1..]) != "" then FileExt(n[1..])
    else if n[0] == '.' then n
    else ""
  }

  predicate HasSuffix(s: string, suffix: string) {
    |suffix| <= |s| && s[|s| - |suffix|..] == suffix
  }

  /** `Ext`: ".tar" in front of the extension belongs to it. */
  function Ext(n: string): string {
    var extension := FileExt(n);
    var baseName := TrimSuffix(n, extension);
    if HasSuffix(baseName, ".tar") then ".tar" + extension else extension
  }

  function Digit(d: nat): char
    requires d < 10
  {
    '0' + d as char
  }

  function Itoa(n: nat): (r: string)
    ensures r != "" && forall i :: 0 <= i < |r| ==> '0' <= r[i] <= '9'
  {
    if n < 10 then [Digit(n)] else Itoa(n / 10) + [Digit(n % 10)]
  }

  const LAST: nat := 50

  /** The suffix tried in round `i`; the last one carries the time. */
  function Suffix(i: nat, stamp: string): string {
    if i == 0 then ""
    else if i == 1 then " copy"
    else if i == LAST then " copy." + stamp
    else " copy " + Itoa(i - 1)
  }

  function Candidate(base: string, ext: string, i: nat, stamp: string): string {
    base + Suffix(i, stamp) + ext
  }

  ghost predicate Taken(t: Nodes, dir: Path, base: string, ext: string, stamp: string, i: nat) {
    dir + [Candidate(base, ext, i, stamp)] in t
  }

  /** The first candidate from `k` on that is free; the last one when all are taken. */
  function FreeIndex(t: Nodes, dir: Path, base: string, ext: string, stamp: string, k: nat): (i: nat)
    requires k <= LAST
    ensures k <= i <= LAST
    decreases LAST - k
  {
    if k == LAST || dir + [Candidate(base, ext, k, stamp)] !in t then k
    else FreeIndex(t, dir, base, ext, stamp, k + 1)
  }

  lemma {:induction false} FreeIndexMeaning(t: Nodes, dir: Path, base: string, ext: string, stamp: string, k: nat)
    requires k <= LAST
    ensures var i := FreeIndex(t, dir, base, ext, stamp, k);
            && (forall j :: k <= j < i ==> Taken(t, dir, base, ext, stamp, j))
            && (Taken(t, dir, base, ext, stamp, i) ==> i == LAST)
    decreases LAST - k
  {
    if k < LAST && dir + [Candidate(base, ext, k, stamp)] in t {
      FreeIndexMeaning(t, dir, base, ext, stamp, k + 1);
      assert Taken(t, dir, base, ext, stamp, k);
    }
  }

  /** The suffix of round `i`; round 0 keeps the one it starts with. */
  method NextSuffix(i: nat, before: string, stamp: string) returns (suffix: string)
    requires i == 0 ==> before == ""
    ensures suffix == Suffix(i, stamp)
  {
    suffix := before;
    if i == 1 {
      suffix := " copy";
    } else if i == LAST {
      suffix := " copy." + stamp;
    } else if i > 1 {
      suffix := " copy " + Itoa(i - 1);
    }
  }

  /**
   The first candidate that is free.  When all are taken the name with the time is returned although it
   is taken too.
   */
  method FindCopySuffix(t: Nodes, dir: Path, base: string, ext: string, stamp: string) returns (name: string)
    ensures name == Candidate(base, ext, FreeIndex(t, dir, base, ext, stamp, 0), stamp)
  {
    var k: nat := 0;
    var suffix := "";
    while k < LAST + 1
      invariant k <= LAST + 1
      invariant k == 0 ==> suffix == ""
      invariant k > 0 ==> suffix == Suffix(k - 1, stamp)
      invariant FreeIndex(t, dir, base, ext, stamp, 0) == FreeIndex(t, dir, base, ext, stamp, if k <= LAST then k else LAST)
    {
      suffix := NextSuffix(k, suffix, stamp);
      name := base + suffix + ext;
      if dir + [name] !in t {
        assert name == Candidate(base, ext, k, stamp);
        return name;
      }
      k := k + 1;
    }
    name := base + suffix + ext;
  }

  // ---- Extensions ----

  lemma {:induction false} FileExtIsSuffix(n: string)
    ensures HasSuffix(n, FileExt(n))
  {
    if n != "" {
      FileExtIsSuffix(n[1..]);
      var r := FileExt(n[1..]);
      assert n[|n| - |r|..] == n[1..][|n| - 1 - |r|..];
      assert n[0..] == n && n[|n|..] == "";
    }
  }

  lemma TrimBack(n: string, suffix: string)
    requires HasSuffix(n, suffix)
    ensures TrimSuffix(n, suffix) + suffix == n
  {
  }

  lemma ExtIsSuffix(n: string)
    ensures HasSuffix(n, Ext(n))
  {
    var extension := FileExt(n);
    var baseName := TrimSuffix(n, extension);
    FileExtIsSuffix(n);
    TrimBack(n, extension);
    if HasSuffix(baseName, ".tar") {
      TrimBack(baseName, ".tar");
      Regrouped(TrimSuffix(baseName, ".tar"), ".tar", extension);
    }
  }

  lemma Regrouped(a: string, b: string, c: string)
    ensures a + b + c == a + (b + c) && HasSuffix(a + b + c, b + c)
  {
  }

  /** Taking the extension off and putting it back gives the name, so round 0 finds the source itself. */
  lemma ExtMeaning(n: string, stamp: string)
    ensures TrimSuffix(n, Ext(n)) + Ext(n) == n
    ensures CopyName(n, 0, stamp) == n
  {
    ExtIsSuffix(n);
    TrimBack(n, Ext(n));
    NoSuffix(TrimSuffix(n, Ext(n)), Ext(n));
  }

  lemma NoSuffix(b: string, e: string)
    ensures b + "" + e == b + e
  {
    assert b + "" == b;
  }

  lemma LongerName(n: string, i: nat, stamp: string)
    requires 0 < i
    ensures |CopyName(n, i, stamp)| > |n|
  {
    ExtMeaning(n, stamp);
  }

  lemma {:induction false} FileExtNone(n: string)
    requires '.' !in n
    ensures FileExt(n) == ""
  {
    if n != "" {
      NotInRest(n);
      FileExtNone(n[1..]);
    }
  }

  lemma NotInRest(n: string)
    requires n != "" && '.' !in n
    ensures n[0] != '.' && '.' !in n[1..]
  {
  }

  lemma {:induction false} FileExtMeaning(b: string, e: string)
    requires '.' !in e
    ensures FileExt(b + "." + e) == "." + e
    decreases |b|
  {
    AfterFirst(b, "." + e);
    if b == "" {
      FileExtNone(e);
    } else {
      FileExtMeaning(b[1..], e);
    }
  }

  lemma AfterFirst(b: string, d: string)
    requires d != ""
    ensures var n := b + [d[0]] + d[1..];
            n != "" && n == b + d && if b == "" then n == d else n[1..] == b[1..] + [d[0]] + d[1..]
  {
    assert d == [d[0]] + d[1..];
  }

  lemma TrimsSuffix(a: string, b: string)
    ensures TrimSuffix(a + b, b) == a
  {
    assert (a + b)[|a|..] == b && (a + b)[..|a|] == a;
  }

  /** The extension starts at the last dot. */
  lemma ExtOfOne(b: string, e: string)
    requires '.' !in e && !HasSuffix(b, ".tar")
    ensures Ext(b + "." + e) == "." + e
  {
    BaseOf(b, e);
  }

  /** A ".tar" in front of it is taken along. */
  lemma ExtOfTar(b: string, e: string)
    requires '.' !in e
    ensures Ext(b + ".tar." + e) == ".tar." + e
  {
    BaseOf(b + ".tar", e);
    TarSpelled(b, e);
  }

  lemma BaseOf(b: string, e: string)
    requires '.' !in e
    ensures FileExt(b + "." + e) == "." + e && TrimSuffix(b + "." + e, "." + e) == b
  {
    FileExtMeaning(b, e);
    TrimsSuffix(b, "." + e);
    Regrouped(b, ".", e);
  }

  lemma TarSpelled(b: string, e: string)
    ensures b + ".tar." + e == b + ".tar" + "." + e && ".tar" + ("." + e) == ".tar." + e && HasSuffix(b + ".tar", ".tar")
  {
    assert ".tar" + "." == ".tar.";
  }

  lemma ExtOfNone(n: string)
    requires '.' !in n
    ensures Ext(n) == ""
  {
    FileExtNone(n);
    NoTar(n);
    assert n[..|n|] == n;
  }

  lemma NoTar(n: string)
    requires '.' !in n
    ensures !HasSuffix(n, ".tar")
  {
    if |n| >= 4 {
      assert n[|n| - 4..][0] == n[|n| - 4];
    }
  }

  // ---- Candidates ----

  /** The number a string of decimal digits stands for. */
  function Value(d: string): int {
    if d == "" then 0 else 10 * Value(d[..|d| - 1]) + (d[|d| - 1] as int - '0' as int)
  }

  lemma {:induction false} ItoaMeaning(n: nat)
    ensures Value(Itoa(n)) == n && (n > 0 ==> Itoa(n)[0] != '0')
  {
    if n < 10 {
      assert Itoa(n)[..0] == "";
    } else {
      ItoaMeaning(n / 10);
      var d := Itoa(n / 10);
      assert Itoa(n) == d + [Digit(n % 10)];
      assert Itoa(n)[..|d|] == d;
    }
  }

  /** What the 51 candidates look like. */
  lemma CandidateMeaning(base: string, ext: string, i: nat, stamp: string)
    requires i <= 50
    ensures i == 0 ==> Candidate(base, ext, i, stamp) == base + ext
    ensures i == 1 ==> Candidate(base, ext, i, stamp) == base + " copy" + ext
    ensures i == 50 ==> Candidate(base, ext, i, stamp) == base + " copy." + stamp + ext
    ensures 2 <= i <= 49 ==>
              exists d: string ::
                && Candidate(base, ext, i, stamp) == base + " copy " + d + ext && Value(d) == i - 1
                && d != "" && d[0] != '0' && forall k :: 0 <= k < |d| ==> '0' <= d[k] <= '9'
  {
    assert base + "" == base;
    if i == 50 {
      assert base + (" copy." + stamp) == base + " copy." + stamp;
    }
    if 2 <= i <= 49 {
      var d := Itoa(i - 1);
      ItoaMeaning(i - 1);
      assert base + (" copy " + d) == base + " copy " + d;
    }
  }

  /** No two of them are the same, whatever the time looks like. */
  lemma CandidatesDiffer(base: string, ext: string, i: nat, j: nat, stamp: string)
    requires i < j <= 50
    ensures Candidate(base, ext, i, stamp) != Candidate(base, ext, j, stamp)
  {
    var a, b := Suffix(i, stamp), Suffix(j, stamp);
    SuffixesDiffer(i, j, stamp);
    Middle(base, a, ext);
    Middle(base, b, ext);
  }

  lemma Middle(a: string, b: string, c: string)
    ensures |a + b + c| == |a| + |b| + |c| && (a + b + c)[|a|..|a| + |b|] == b
  {
  }

  lemma SuffixesDiffer(i: nat, j: nat, stamp: string)
    requires i < j <= 50
    ensures Suffix(i, stamp) != Suffix(j, stamp)
  {
    if j == 50 {
      StampDiffers(i, stamp);
    } else if i >= 2 {
      ItoaMeaning(i - 1);
      ItoaMeaning(j - 1);
      TailOf(Itoa(i - 1));
      TailOf(Itoa(j - 1));
    }
  }

  lemma TailOf(d: string)
    ensures (" copy " + d)[6..] == d
  {
  }

  lemma StampDiffers(i: nat, stamp: string)
    requires i < 50
    ensures Suffix(i, stamp) != " copy." + stamp
  {
    var b := " copy." + stamp;
    assert |b| > 5 && b[5] == '.';
    if i >= 2 {
      assert (" copy " + Itoa(i - 1))[5] == ' ';
    }
  }

  /** The candidate names for the duplicate of `n`. */
  function CopyName(n: string, i: nat, stamp: string): string {
    Candidate(TrimSuffix(n, Ext(n)), Ext(n), i, stamp)
  }

  /** The suffix goes between the name and its extension. */
  lemma CopyNameMeaning(b: string, e: string, i: nat, stamp: string)
    requires Ext(b + e) == e
    ensures CopyName(b + e, i, stamp) == Candidate(b, e, i, stamp)
  {
    TrimsSuffix(b, e);
  }

  lemma SuffixIs(i: nat, stamp: string)
    requires '/' !in stamp && i <= LAST
    ensures '/' !in Suffix(i, stamp)
    ensures i == 0 || |Suffix(i, stamp)| >= 5
  {
  }

  lemma ProperMiddle(b: string, s: string, e: string)
    requires Proper(b + e) && '/' !in s && (s == "" || |s| >= 5)
    ensures Proper(b + s + e)
  {
    var n := b + e;
    assert forall k :: 0 <= k < |b| ==> n[k] == b[k];
    assert forall k :: 0 <= k < |e| ==> n[|b| + k] == e[k];
    assert s == "" ==> b + s + e == n;
  }

  lemma CopyNameIsProper(n: string, i: nat, stamp: string)
    requires Proper(n) && '/' !in stamp && i <= LAST
    ensures Proper(CopyName(n, i, stamp))
  {
    ExtMeaning(n, stamp);
    SuffixIs(i, stamp);
    ProperMiddle(TrimSuffix(n, Ext(n)), Suffix(i, stamp), Ext(n));
  }
}
