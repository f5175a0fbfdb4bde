/**
 What the write operations of the filesystem do to the disk and to the usage counter, as relations
 on states, and what holds of every sequential run of them.
 */
module Accounting {
  import opened Prelude
  import opened Paths
  import opened Tree

  datatype Disk = Disk(nodes: Nodes, sizes: Sizes, limit: int, usage: int)

  ghost predicate ValidDisk(s: Disk) {
    && WellFormed(s.nodes) && Sized(s.nodes, s.sizes)
    && (forall i :: i in s.sizes ==> s.sizes[i] <= MAX_INT64)
    && -1 <= s.limit <= MAX_INT64
    && -1 <= s.usage <= MAX_INT64
  }

  /** The cached usage is what a full walk would compute. */
  ghost predicate Agrees(s: Disk)
    requires Sized(s.nodes, s.sizes)
  {
    s.usage == Bytes(s.nodes, s.sizes)
  }

  /** `Quota.Add`: an int64 sum, stored as zero when it comes out negative. */
  function AddUsage(usage: int, i: int): (r: int)
    requires IsInt64(usage) && IsInt64(i)
    ensures 0 <= r <= MAX_INT64
    ensures IsInt64(usage + i) ==> r == Max(0, usage + i)
    ensures usage + i > MAX_INT64 ==> r == 0
  {
    Max(0, Wrap64(usage + i))
  }

  /** `Quota.CanFit`. */
  function CanFit(limit: int, usage: int, size: int): bool
    requires IsInt64(usage) && IsInt64(size)
  {
    if limit == -1 then false
    else if limit == 0 then true
    else if usage == -1 then true
    else Wrap64(usage + size) <= limit
  }

  /**
   What the guard lets through: everything without a limit or while the usage is unknown, and otherwise
   what fits, but also every sum that wraps around an int64.
   */
  lemma CanFitMeaning(limit: int, usage: int, size: int)
    requires -1 <= limit <= MAX_INT64 && -1 <= usage <= MAX_INT64 && IsInt64(size)
    ensures CanFit(limit, usage, size) <==>
              limit == 0 || (limit > 0 && (usage == -1 || usage + size <= limit || usage + size > 0x7FFF_FFFF_FFFF_FFFF))
  {
  }

  // ---- Directories and moves ----

  /** `t` with the missing directories on the way to `d`. */
  function WithDirs(t: Nodes, d: Path): Nodes
    decreases |d|
  {
    if d in t then t
    else if d == [] then t[d := Dir]
    else WithDirs(t, Parent(d))[d := Dir]
  }

  ghost predicate OnlyDirsAdded(t: Nodes, t': Nodes) {
    && t.Keys <= t'.Keys
    && (forall q :: q in t ==> t'[q] == t[q])
    && (forall q :: q in t' && q !in t ==> t'[q].Dir?)
  }

  lemma PrefixStep(d: Path, q: Path)
    requires d != []
    ensures q <= d <==> q <= Parent(d) || q == d
  {
    if q <= d && |q| < |d| {
      assert q == d[..|q|] == Parent(d)[..|q|];
    }
    if q <= Parent(d) {
      assert q == Parent(d)[..|q|] == d[..|q|];
    }
  }

  lemma {:induction false} WithDirsMeaning(t: Nodes, d: Path)
    requires WellFormed(t) && !ThroughLeaf(t, d) && CleanPath(d)
    ensures OnlyDirsAdded(t, WithDirs(t, d)) && WellFormed(WithDirs(t, d))
    ensures forall q :: q in WithDirs(t, d) <==> q in t || q <= d
    decreases |d|
  {
    var w := WithDirs(t, d);
    if d in t {
      forall q | q <= d ensures q in t {
        if q != d {
          AncestorIsDir(t, q, d);
        }
      }
    } else {
      var p := Parent(d);
      ParentThroughLeaf(t, d);
      WithDirsMeaning(t, p);
      assert p <= p;
      forall q ensures q in w <==> q in t || q <= d {
        PrefixStep(d, q);
      }
      assert d[..|p|] == p;
      assert IsDir(WithDirs(t, p), p);
    }
  }

  lemma ParentThroughLeaf(t: Nodes, d: Path)
    requires d != []
    ensures ThroughLeaf(t, d) <==> ThroughLeaf(t, Parent(d)) || (Parent(d) in t && !t[Parent(d)].Dir?)
  {
    var p := Parent(d);
    assert d[..|p|] == p;
    assert forall k :: 0 <= k < |p| ==> p[..k] == d[..k];
    if ThroughLeaf(t, p) {
      var k :| 0 <= k < |p| && p[..k] in t && !t[p[..k]].Dir?;
      assert d[..k] == p[..k];
    }
    if ThroughLeaf(t, d) {
      var k :| 0 <= k < |d| && d[..k] in t && !t[d[..k]].Dir?;
      assert k < |p| ==> p[..k] == d[..k];
    }
  }

  /** `t` with the subtree at `from` moved to `to`. */
  function Move(t: Nodes, from: Path, to: Path): Nodes {
    (map q | q in t && !(from <= q) :: t[q])
    + (map r | r in (set q | q in t && from <= q :: to + q[|from|..]) && from + r[|to|..] in t :: t[from + r[|to|..]])
  }

  lemma MoveIs(t: Nodes, from: Path, to: Path, q: Path)
    requires !(from <= to)
    requires forall x :: x in t ==> !(to <= x)
    ensures q in Move(t, from, to) <==>
              if to <= q then from + q[|to|..] in t else q in t && !(from <= q)
    ensures to <= q && from + q[|to|..] in t ==> Move(t, from, to)[q] == t[from + q[|to|..]]
    ensures q in t && !(from <= q) ==> Move(t, from, to)[q] == t[q]
  {
    if to <= q {
      var x := from + q[|to|..];
      assert q == to + x[|from|..];
      if from <= q {
        // Both `from` and `to` would lead to `q`, so one leads to the other.
        assert |to| < |from| && to <= from;
      }
    }
    forall x | x in t && from <= x ensures to <= to + x[|from|..] && (to + x[|from|..])[|to|..] == x[|from|..] && from + x[|from|..] == x {
    }
  }

  /** A move inside the tree keeps it well formed, and moving back undoes it. */
  lemma MoveMeaning(t: Nodes, from: Path, to: Path)
    requires WellFormed(t) && from in t && from != [] && to != [] && CleanPath(to)
    requires !(from <= to) && to !in t && IsDir(t, Parent(to))
    ensures WellFormed(Move(t, from, to))
    ensures Move(Move(t, from, to), to, from) == t
  {
    NothingUnder(t, to);
    MoveTree(t, from, to);
    MoveBack(t, from, to);
  }

  lemma NothingUnder(t: Nodes, p: Path)
    requires WellFormed(t) && p !in t
    ensures forall x :: x in t ==> !(p <= x)
  {
    forall x | x in t ensures !(p <= x) {
      if p <= x {
        assert x != p;
        AncestorIsDir(t, p, x);
      }
    }
  }

  lemma MoveBack(t: Nodes, from: Path, to: Path)
    requires !(from <= to) && from in t
    requires forall x :: x in t ==> !(to <= x)
    ensures Move(Move(t, from, to), to, from) == t
  {
    var m := Move(t, from, to);
    assert from <= from;
    assert !(to <= from);
    forall x | x in m ensures !(from <= x) {
      MoveIs(t, from, to, x);
    }
    MovedAll(t, from, to);
    MovedAll(m, to, from);
    MovedBack(t, from, to, m, Move(m, to, from));
  }

  ghost predicate Moved(t: Nodes, from: Path, to: Path, m: Nodes) {
    && (forall q {:trigger Origin(from, to, q)} :: q in m ==> Origin(from, to, q) in t && m[q] == t[Origin(from, to, q)] && (from <= q ==> to <= q))
    && (forall q {:trigger Origin(to, from, q)} :: q in t ==> Origin(to, from, q) in m && m[Origin(to, from, q)] == t[q])
  }

  lemma MovedAll(t: Nodes, from: Path, to: Path)
    requires !(from <= to) && forall x :: x in t ==> !(to <= x)
    ensures Moved(t, from, to, Move(t, from, to))
  {
    var m := Move(t, from, to);
    forall q {:trigger Origin(from, to, q)} | q in m
      ensures Origin(from, to, q) in t && m[q] == t[Origin(from, to, q)] && (from <= q ==> to <= q)
    {
      MoveIs(t, from, to, q);
    }
    forall q {:trigger Origin(to, from, q)} | q in t
      ensures Origin(to, from, q) in m && m[Origin(to, from, q)] == t[q]
    {
      var x := Origin(to, from, q);
      MoveIs(t, from, to, x);
      if from <= q {
        assert from + x[|to|..] == q;
      }
    }
  }

  lemma MovedBack(t: Nodes, from: Path, to: Path, m: Nodes, back: Nodes)
    requires Moved(t, from, to, m) && Moved(m, to, from, back)
    requires forall x :: x in t ==> !(to <= x)
    ensures back == t
  {
    forall q | q in t ensures q in back && back[q] == t[q] {
      var x := Origin(to, from, q);
      assert x in m;
      assert Origin(from, to, x) == q;
    }
    forall q | q in back ensures q in t {
      var x := Origin(to, from, q);
      assert x in m;
      assert Origin(from, to, x) in t;
      assert to <= q ==> from <= q;
      assert Origin(from, to, x) == q;
    }
  }

  lemma MoveTree(t: Nodes, from: Path, to: Path)
    requires WellFormed(t) && from in t && from != [] && to != [] && CleanPath(to)
    requires !(from <= to) && IsDir(t, Parent(to))
    requires forall x :: x in t ==> !(to <= x)
    ensures WellFormed(Move(t, from, to))
  {
    var m := Move(t, from, to);
    MoveIs(t, from, to, []);
    forall q {:trigger Parent(q)} | q in m && q != [] ensures IsDir(m, Parent(q)) {
      MovedParent(t, from, to, q);
    }
    forall q | q in m ensures CleanPath(q) {
      MovedClean(t, from, to, q);
    }
  }

  lemma MovedParent(t: Nodes, from: Path, to: Path, q: Path)
    requires WellFormed(t) && from in t && from != [] && to != [] && !(from <= to) && IsDir(t, Parent(to))
    requires forall x :: x in t ==> !(to <= x)
    requires q in Move(t, from, to) && q != []
    ensures IsDir(Move(t, from, to), Parent(q))
  {
    MoveIs(t, from, to, q);
    MoveIs(t, from, to, Parent(q));
    if q == to {
      NotBelowParent(from, to);
      NotBelowItself(to);
    } else if to <= q {
      ParentOfShifted(from, to, q);
    } else {
      NotBelowParent(from, q);
      NotBelowParent(to, q);
    }
  }

  lemma NotBelowParent(a: Path, q: Path)
    requires q != [] && !(a <= q)
    ensures !(a <= Parent(q))
  {
  }

  lemma NotBelowItself(q: Path)
    requires q != []
    ensures !(q <= Parent(q))
  {
  }

  lemma ParentOfShifted(from: Path, to: Path, q: Path)
    requires to < q
    ensures to <= Parent(q) && from + q[|to|..] != [] && Parent(from + q[|to|..]) == from + Parent(q)[|to|..]
  {
  }

  lemma MovedClean(t: Nodes, from: Path, to: Path, q: Path)
    requires WellFormed(t) && !(from <= to) && CleanPath(to)
    requires forall x :: x in t ==> !(to <= x)
    requires q in Move(t, from, to)
    ensures CleanPath(q)
  {
    MoveIs(t, from, to, q);
    if to <= q {
      var x := from + q[|to|..];
      forall i | 0 <= i < |q| ensures Proper(q[i]) {
        if i >= |to| {
          assert q[i] == x[i - |to| + |from|];
        } else {
          assert q[i] == to[i];
        }
      }
    }
  }

  // ---- Bytes ----

  lemma BytesOfDirs(t: Nodes, t': Nodes, sizes: Sizes)
    requires Sized(t, sizes) && OnlyDirsAdded(t, t')
    ensures Sized(t', sizes) && Bytes(t', sizes) == Bytes(t, sizes)
    ensures NoHardLinks(t) ==> NoHardLinks(t')
  {
    assert forall q :: q in t' && t'[q].File? ==> q in t;
    assert Inodes(t') == Inodes(t) by {
      forall i ensures i in Inodes(t') <==> i in Inodes(t) {
        if i in Inodes(t) {
          var q :| q in t && t[q].File? && t[q].ino == i;
          assert q in t' && t'[q].File?;
        }
      }
    }
    assert InodeSizes(t', sizes) == InodeSizes(t, sizes);
  }

  /** Setting the size of the file at `p`, which may be new. */
  lemma BytesOfFile(t: Nodes, sizes: Sizes, p: Path, i: nat, n: nat)
    requires Sized(t, sizes)
    requires if p in t then t[p] == File(i) else i !in Inodes(t)
    ensures Sized(t[p := File(i)], sizes[i := n])
    ensures Bytes(t[p := File(i)], sizes[i := n]) == Bytes(t, sizes) - (if p in t then sizes[i] else 0) + n
    ensures NoHardLinks(t) ==> NoHardLinks(t[p := File(i)])
  {
    var t', m := t[p := File(i)], InodeSizes(t, sizes);
    assert p in t';
    forall j ensures j in Inodes(t') <==> j in Inodes(t) || j == i {
      if j in Inodes(t) {
        var q :| q in t && t[q].File? && t[q].ino == j;
        assert q in t' && t'[q].File? && t'[q].ino == j;
      }
    }
    assert InodeSizes(t', sizes[i := n]) == m[i := n];
    SumUpdate(m, i, n);
    if p in t {
      assert i in Inodes(t);
    }
  }

  lemma BytesOfMove(t: Nodes, sizes: Sizes, from: Path, to: Path)
    requires WellFormed(t) && Sized(t, sizes)
    requires !(from <= to) && to !in t
    ensures Sized(Move(t, from, to), sizes) && Bytes(Move(t, from, to), sizes) == Bytes(t, sizes)
    ensures NoHardLinks(t) ==> NoHardLinks(Move(t, from, to))
  {
    var m := Move(t, from, to);
    NothingUnder(t, to);
    MovedAll(t, from, to);
    MovedInodes(t, sizes, from, to, m);
    assert InodeSizes(m, sizes) == InodeSizes(t, sizes);
    if NoHardLinks(t) {
      MovedLinks(t, from, to, m);
    }
  }

  lemma MovedInodes(t: Nodes, sizes: Sizes, from: Path, to: Path, m: Nodes)
    requires Sized(t, sizes) && Moved(t, from, to, m)
    ensures Sized(m, sizes) && Inodes(m) == Inodes(t)
  {
    forall q | q in m ensures Origin(from, to, q) in t && m[q] == t[Origin(from, to, q)] {
    }
    forall i | i in Inodes(t) ensures i in Inodes(m) {
      var q :| q in t && t[q].File? && t[q].ino == i;
      assert m[Origin(to, from, q)] == t[q];
    }
  }

  lemma MovedLinks(t: Nodes, from: Path, to: Path, m: Nodes)
    requires Moved(t, from, to, m) && NoHardLinks(t)
    ensures NoHardLinks(m)
  {
    forall p, q | p in m && q in m && m[p].File? && m[q].File? && m[p].ino == m[q].ino ensures p == q {
      assert t[Origin(from, to, p)] == m[p] && t[Origin(from, to, q)] == m[q];
      OneOrigin(t, from, to, m, p, q);
    }
  }

  lemma OneOrigin(t: Nodes, from: Path, to: Path, m: Nodes, p: Path, q: Path)
    requires Moved(t, from, to, m) && p in m && q in m && Origin(from, to, p) == Origin(from, to, q)
    ensures p == q
  {
    var a := Origin(from, to, p);
    assert a == Origin(from, to, q);
    if to <= p {
      assert p == to + a[|from|..];
    }
    if to <= q {
      assert q == to + a[|from|..];
    }
  }

  /** Where an entry of the moved tree came from. */
  function Origin(from: Path, to: Path, q: Path): Path {
    if to <= q then from + q[|to|..] else q
  }

  // ---- Removal: charged bytes against freed bytes ----

  /** Every removed file that has a size had no other name. */
  ghost predicate SingleLinked(t: Nodes, t': Nodes, sizes: Sizes)
    requires Sized(t, sizes)
  {
    forall p, q :: p in Gone(t, t', sizes) && Gone(t, t', sizes)[p] > 0 && q in t && t[q].File? && t[q].ino == t[p].ino ==> p == q
  }

  ghost predicate OtherName(t: Nodes, p: Path) {
    p in t && t[p].File? && exists q :: q in t && q != p && t[q].File? && t[q].ino == t[p].ino
  }

  /** Taking one name away frees the inode unless it has another name. */
  lemma BytesOfUnlink(t: Nodes, sizes: Sizes, p: Path)
    requires Sized(t, sizes) && p in t && t[p].File?
    ensures Sized(t - {p}, sizes)
    ensures Bytes(t, sizes) == Bytes(t - {p}, sizes) + if OtherName(t, p) then 0 else sizes[t[p].ino]
  {
    var t', i := t - {p}, t[p].ino;
    var m := InodeSizes(t, sizes);
    assert i in Inodes(t);
    forall j ensures j in Inodes(t') <==> j in Inodes(t) && (j == i ==> OtherName(t, p)) {
      if j in Inodes(t) && (j == i ==> OtherName(t, p)) {
        var q :| q in t && t[q].File? && t[q].ino == j && q != p;
        assert q in t' && t'[q].File? && t'[q].ino == j;
      }
    }
    if OtherName(t, p) {
      assert InodeSizes(t', sizes) == m;
    } else {
      assert InodeSizes(t', sizes) == m - {i};
      SumRemove(m, i);
    }
  }

  /** The charge is never below the bytes freed, and equal just when no removed file had another name. */
  lemma {:induction false} ChargeMeaning(t: Nodes, t': Nodes, sizes: Sizes)
    requires Sized(t, sizes) && Within(t', t)
    ensures Sized(t', sizes)
    ensures Sum(Gone(t, t', sizes)) >= Bytes(t, sizes) - Bytes(t', sizes)
    ensures Sum(Gone(t, t', sizes)) == Bytes(t, sizes) - Bytes(t', sizes) <==> SingleLinked(t, t', sizes)
    decreases Gone(t, t', sizes).Keys
  {
    var gone := Gone(t, t', sizes);
    if gone == map[] {
      SameFiles(t, t', sizes);
    } else {
      var p :| p in gone;
      var t1 := t - {p};
      var gone1 := Gone(t1, t', sizes);
      assert gone1 == gone - {p};
      assert gone1.Keys == gone.Keys - {p};
      SumRemove(gone, p);
      BytesOfUnlink(t, sizes, p);
      ChargeMeaning(t1, t', sizes);
      LinkStep(t, t', sizes, p);
    }
  }

  lemma SameFiles(t: Nodes, t': Nodes, sizes: Sizes)
    requires Sized(t, sizes) && Within(t', t) && Gone(t, t', sizes) == map[]
    ensures Sized(t', sizes) && Bytes(t', sizes) == Bytes(t, sizes)
  {
    forall i ensures i in Inodes(t') <==> i in Inodes(t) {
      if i in Inodes(t) {
        var q :| q in t && t[q].File? && t[q].ino == i;
        assert q !in Gone(t, t', sizes);
        assert q in t' && t'[q].File?;
      }
    }
    assert InodeSizes(t', sizes) == InodeSizes(t, sizes);
  }

  lemma LinkStep(t: Nodes, t': Nodes, sizes: Sizes, p: Path)
    requires Sized(t, sizes) && Within(t', t) && p in Gone(t, t', sizes)
    ensures SingleLinked(t, t', sizes) <==>
              (sizes[t[p].ino] == 0 || !OtherName(t, p)) && SingleLinked(t - {p}, t', sizes)
  {
    var t1 := t - {p};
    var gone, gone1 := Gone(t, t', sizes), Gone(t1, t', sizes);
    assert gone1 == gone - {p};
    if SingleLinked(t, t', sizes) {
      assert SingleLinked(t1, t', sizes);
    }
    if (sizes[t[p].ino] == 0 || !OtherName(t, p)) && SingleLinked(t1, t', sizes) {
      forall a, b | a in gone && gone[a] > 0 && b in t && t[b].File? && t[b].ino == t[a].ino ensures a == b {
        assert a != p && b != p ==> a in gone1 && b in t1;
      }
    }
  }

  /**
   After a delete the cached usage is still what a walk would compute exactly when no refused file has a
   size, and nothing is left to count or no removed file with a size had another name.
   */
  lemma DeleteAgreement(s: Disk, s': Disk, lost: set<Path>)
    requires ValidDisk(s) && Agrees(s)
    requires Within(s'.nodes, s.nodes) && s'.sizes == s.sizes && lost <= s'.nodes.Keys
    requires Charged(s.usage, s.nodes, s'.usage, s'.nodes, s.sizes, lost)
    ensures Sized(s'.nodes, s'.sizes)
    ensures Agrees(s') <==>
              Lost(s.nodes, lost, s.sizes) == 0 && (Bytes(s'.nodes, s'.sizes) == 0 || SingleLinked(s.nodes, s'.nodes, s.sizes))
  {
    ChargeMeaning(s.nodes, s'.nodes, s.sizes);
    if Gone(s.nodes, s'.nodes, s.sizes) == map[] {
      SameFiles(s.nodes, s'.nodes, s.sizes);
    }
    if Lost(s.nodes, lost, s.sizes) > 0 {
      RefusedStays(s.nodes, s'.nodes, lost, s.sizes);
    }
  }

  /** A refused file with a size is still counted. */
  lemma RefusedStays(t: Nodes, t': Nodes, lost: set<Path>, sizes: Sizes)
    requires Sized(t, sizes) && Within(t', t) && lost <= t'.Keys && Lost(t, lost, sizes) > 0
    ensures Sized(t', sizes) && Bytes(t', sizes) > 0
  {
    LostMeaning(t, lost, sizes);
    var q :| q in lost && q in t && t[q].File? && sizes[t[q].ino] > 0;
    FileCounts(t', sizes, q);
  }

  lemma FileCounts(t: Nodes, sizes: Sizes, p: Path)
    requires Sized(t, sizes) && p in t && t[p].File?
    ensures sizes[t[p].ino] <= Bytes(t, sizes)
  {
    assert t[p].ino in Inodes(t);
    SumRemove(InodeSizes(t, sizes), t[p].ino);
  }

  // ---- Steps ----

  /**
   One change of the disk or of the counter.  `Dirs` also covers every operation that stopped before it
   opened a file.  `n` is what the copy loop moved, whatever made it stop; `lost` are the entries whose
   removal was refused.
   */
  datatype Op =
    | Dirs
    | Write(p: Path, newSize: int, n: nat, ino: nat)
    | Copy(dst: Path, size: nat, n: nat, ino: nat)
    | Create(p: Path, ino: nat)
    | Chunk(p: Path, pos: nat, n: nat)
    | Rename(from: Path, to: Path)
    | Remove(lost: set<Path>)
    | Refresh

  /** The size an earlier file at `p` had, zero if there is none. */
  function OldSize(s: Disk, p: Path): nat
    requires Sized(s.nodes, s.sizes)
  {
    if p in s.nodes && s.nodes[p].File? then s.sizes[s.nodes[p].ino] else 0
  }

  /** `ino` is the inode an open with O_CREATE at `p` yields. */
  ghost predicate Opens(s: Disk, p: Path, ino: nat) {
    && p != [] && CleanPath(p) && !ThroughLeaf(s.nodes, p)
    && if p in s.nodes then s.nodes[p] == File(ino) else ino !in s.sizes
  }

  ghost predicate Step(s: Disk, op: Op, s': Disk)
    requires ValidDisk(s)
  {
    && s'.limit == s.limit
    && match op
       case Dirs =>
         OnlyDirsAdded(s.nodes, s'.nodes) && s'.sizes == s.sizes && s'.usage == s.usage
       case Write(p, newSize, n, ino) =>
         && IsInt64(newSize) && Opens(s, p, ino) && n <= Max(newSize, 0)
         && CanFit(s.limit, s.usage, Wrap64(newSize - OldSize(s, p)))
         && s'.nodes == WithDirs(s.nodes, Parent(p))[p := File(ino)]
         && s'.sizes == s.sizes[ino := n]
         && s'.usage == AddUsage(s.usage, n - OldSize(s, p))
       case Copy(dst, size, n, ino) =>
         && Opens(s, dst, ino) && IsDir(s.nodes, Parent(dst)) && n <= size <= MAX_INT64
         && CanFit(s.limit, s.usage, size)
         && s'.nodes == s.nodes[dst := File(ino)]
         && s'.sizes == s.sizes[ino := Max(OldSize(s, dst), n)]
         && s'.usage == AddUsage(s.usage, n)
       case Create(p, ino) =>
         && Opens(s, p, ino) && IsDir(s.nodes, Parent(p))
         && s'.nodes == s.nodes[p := File(ino)]
         && s'.sizes == s.sizes[ino := OldSize(s, p)]
         && s'.usage == s.usage
       case Chunk(p, pos, n) =>
         && p in s.nodes && s.nodes[p].File? && pos <= OldSize(s, p) && pos + n <= MAX_INT64
         && CanFit(s.limit, s.usage, n)
         && s'.nodes == s.nodes
         && s'.sizes == s.sizes[s.nodes[p].ino := Max(OldSize(s, p), pos + n)]
         && s'.usage == AddUsage(s.usage, n)
       case Rename(from, to) =>
         && from in s.nodes && from != [] && to != [] && CleanPath(to) && !ThroughLeaf(s.nodes, to)
         && to !in s.nodes && !(from <= to)
         && s'.nodes == Move(WithDirs(s.nodes, Parent(to)), from, to)
         && s'.sizes == s.sizes && s'.usage == s.usage
       case Remove(lost) =>
         && Within(s'.nodes, s.nodes) && WellFormed(s'.nodes) && s'.sizes == s.sizes && lost <= s'.nodes.Keys
         && Charged(s.usage, s.nodes, s'.usage, s'.nodes, s.sizes, lost)
       case Refresh =>
         s'.nodes == s.nodes && s'.sizes == s.sizes && s'.usage == Bytes(s.nodes, s.sizes)
  }

  /** When a step leaves an exact counter exact. */
  ghost predicate KeepsCount(s: Disk, op: Op, s': Disk)
    requires ValidDisk(s) && Step(s, op, s')
  {
    match op
    case Copy(dst, _, n, _) => dst !in s.nodes || n == 0 || OldSize(s, dst) == 0
    case Chunk(p, pos, n) => n == 0 || pos == OldSize(s, p)
    case Remove(lost) =>
      Lost(s.nodes, lost, s.sizes) == 0 && (Bytes(s'.nodes, s'.sizes) == 0 || SingleLinked(s.nodes, s'.nodes, s.sizes))
    case _ => true
  }

  lemma OpenedFile(s: Disk, p: Path, ino: nat, n: nat)
    requires ValidDisk(s) && Opens(s, p, ino)
    ensures var t := WithDirs(s.nodes, Parent(p));
            && OnlyDirsAdded(s.nodes, t) && WellFormed(t[p := File(ino)]) && Sized(t[p := File(ino)], s.sizes[ino := n])
            && Bytes(t[p := File(ino)], s.sizes[ino := n]) == Bytes(s.nodes, s.sizes) - OldSize(s, p) + n
            && (NoHardLinks(s.nodes) ==> NoHardLinks(t[p := File(ino)]))
            && (IsDir(s.nodes, Parent(p)) ==> t == s.nodes)
  {
    var d := Parent(p);
    var t := WithDirs(s.nodes, d);
    ParentThroughLeaf(s.nodes, p);
    WithDirsMeaning(s.nodes, d);
    assert d <= d && !(p <= d);
    assert p in t <==> p in s.nodes;
    BytesOfDirs(s.nodes, t, s.sizes);
    assert p !in t ==> ino !in Inodes(t);
    BytesOfFile(t, s.sizes, p, ino, n);
    NewFileIsWellFormed(s.nodes, t, p, ino);
  }

  lemma NewFileIsWellFormed(t0: Nodes, t: Nodes, p: Path, ino: nat)
    requires WellFormed(t0) && WellFormed(t) && p != [] && CleanPath(p) && Parent(p) in t
    requires OnlyDirsAdded(t0, t) && (p in t <==> p in t0)
    requires p in t0 ==> t0[p] == File(ino)
    requires !ThroughLeaf(t0, p)
    ensures WellFormed(t[p := File(ino)])
  {
    var t', d := t[p := File(ino)], Parent(p);
    assert t[d].Dir? by {
      assert p[..|d|] == d;
    }
    forall q {:trigger Parent(q)} | q in t' && q != [] ensures IsDir(t', Parent(q)) {
      if Parent(q) == p && q in t {
        assert p in t;
      }
    }
  }

  lemma StepValid(s: Disk, op: Op, s': Disk)
    requires ValidDisk(s) && Step(s, op, s')
    requires op.Refresh? ==> Bytes(s.nodes, s.sizes) <= MAX_INT64
    requires op.Dirs? ==> WellFormed(s'.nodes)
    ensures ValidDisk(s')
    ensures NoHardLinks(s.nodes) ==> NoHardLinks(s'.nodes)
  {
    match op {
      case Dirs => BytesOfDirs(s.nodes, s'.nodes, s.sizes);
      case Write(p, _, n, ino) => OpenedFile(s, p, ino, n);
      case Copy(p, _, n, ino) => OpenedFile(s, p, ino, Max(OldSize(s, p), n));
      case Create(p, ino) => OpenedFile(s, p, ino, OldSize(s, p));
      case Chunk(_, _, _) => ChunkValid(s, op, s');
      case Rename(from, to) => RenameStep(s, from, to);
      case Remove(_) => RemoveValid(s, op, s');
      case Refresh =>
    }
  }

  lemma ChunkValid(s: Disk, op: Op, s': Disk)
    requires op.Chunk? && ValidDisk(s) && Step(s, op, s')
    ensures ValidDisk(s') && s'.nodes == s.nodes
  {
  }

  lemma RemoveValid(s: Disk, op: Op, s': Disk)
    requires op.Remove? && ValidDisk(s) && Step(s, op, s')
    ensures ValidDisk(s')
    ensures NoHardLinks(s.nodes) ==> NoHardLinks(s'.nodes)
  {
  }

  lemma RenameStep(s: Disk, from: Path, to: Path)
    requires ValidDisk(s) && from in s.nodes && from != [] && to != [] && CleanPath(to)
    requires !ThroughLeaf(s.nodes, to) && to !in s.nodes && !(from <= to)
    ensures var t := Move(WithDirs(s.nodes, Parent(to)), from, to);
            && WellFormed(t) && Sized(t, s.sizes) && Bytes(t, s.sizes) == Bytes(s.nodes, s.sizes)
            && (NoHardLinks(s.nodes) ==> NoHardLinks(t))
  {
    var d := Parent(to);
    var t := WithDirs(s.nodes, d);
    ParentThroughLeaf(s.nodes, to);
    WithDirsMeaning(s.nodes, d);
    BytesOfDirs(s.nodes, t, s.sizes);
    assert d <= d && !(to <= d);
    assert to !in t;
    assert IsDir(t, d) by {
      assert to[..|d|] == d;
    }
    MoveMeaning(t, from, to);
    BytesOfMove(t, s.sizes, from, to);
  }

  /**
   A rename, entry by entry: what was at or below the old path is at or below the new one, every other entry
   is as it was, and new entries are otherwise only directories on the way to the new path.
   */
  lemma RenameMeaning(s: Disk, from: Path, to: Path, s': Disk)
    requires ValidDisk(s) && Step(s, Op.Rename(from, to), s')
    ensures forall r :: from + r in s.nodes ==> to + r in s'.nodes && s'.nodes[to + r] == s.nodes[from + r]
    ensures forall q :: q in s'.nodes ==> !(from <= q)
    ensures forall q :: q in s.nodes && !(from <= q) ==> q in s'.nodes && s'.nodes[q] == s.nodes[q]
    ensures forall q :: q in s'.nodes && q !in s.nodes ==>
              (to <= q && from + q[|to|..] in s.nodes) || (q < to && s'.nodes[q].Dir?)
  {
    var d := Parent(to);
    var t := WithDirs(s.nodes, d);
    ParentThroughLeaf(s.nodes, to);
    WithDirsMeaning(s.nodes, d);
    assert d <= d && !(to <= d);
    NothingUnder(t, to);
    forall r | from + r in s.nodes ensures to + r in s'.nodes && s'.nodes[to + r] == s.nodes[from + r] {
      MoveIs(t, from, to, to + r);
      assert (to + r)[|to|..] == r;
    }
    forall q | q in s.nodes && !(from <= q) ensures q in s'.nodes && s'.nodes[q] == s.nodes[q] {
      MoveIs(t, from, to, q);
    }
    forall q | q in s'.nodes
      ensures !(from <= q) && (q !in s.nodes ==> (to <= q && from + q[|to|..] in s.nodes) || (q < to && s'.nodes[q].Dir?))
    {
      MoveIs(t, from, to, q);
      NewEntry(s.nodes, t, from, to, q);
    }
  }

  /** Where an entry of the moved tree can come from. */
  lemma NewEntry(t0: Nodes, t: Nodes, from: Path, to: Path, q: Path)
    requires to != [] && !(from <= to) && from in t && OnlyDirsAdded(t0, t)
    requires forall x :: x in t ==> !(to <= x)
    requires forall x :: x in t <==> x in t0 || x <= Parent(to)
    requires if to <= q then from + q[|to|..] in t else q in t && !(from <= q)
    ensures !(from <= q)
    ensures if to <= q then from + q[|to|..] in t0 else q in t0 || (q < to && t[q].Dir?)
  {
    PrefixStep(to, q);
    if to <= q {
      assert from <= q ==> from <= to || to <= from;
      var x := from + q[|to|..];
      PrefixStep(to, x);
      assert x <= to ==> from <= to;
    }
  }

  /**
   `p` is a file of `n` bytes, every other entry and every other size is as it was, and new entries are
   otherwise only directories on the way to `p`.
   */
  ghost predicate OnlyFileChanged(s: Disk, p: Path, n: nat, s': Disk) {
    && p in s'.nodes && s'.nodes[p].File? && s'.nodes[p].ino in s'.sizes && s'.sizes[s'.nodes[p].ino] == n
    && (forall q :: q in s.nodes ==> q in s'.nodes && s'.nodes[q] == s.nodes[q])
    && (forall q :: q in s'.nodes && q !in s.nodes && q != p ==> q < p && s'.nodes[q].Dir?)
    && (p !in s.nodes ==> s'.nodes[p].ino !in s.sizes)
    && (forall i :: i in s.sizes && i != s'.nodes[p].ino ==> i in s'.sizes && s'.sizes[i] == s.sizes[i])
  }

  /** What a write leaves: a file of `n` bytes, counted instead of what was there before. */
  lemma WriteMeaning(s: Disk, p: Path, newSize: int, n: nat, ino: nat, s': Disk)
    requires ValidDisk(s) && Step(s, Op.Write(p, newSize, n, ino), s')
    ensures OnlyFileChanged(s, p, n, s')
    ensures s.usage - OldSize(s, p) + n <= MAX_INT64 ==> s'.usage == Max(0, s.usage - OldSize(s, p) + n)
  {
    FileMade(s, p, ino, n, s');
  }

  /** What a copy leaves: its bytes over those of an earlier file, and all of them added to the usage. */
  lemma CopyMeaning(s: Disk, dst: Path, size: nat, n: nat, ino: nat, s': Disk)
    requires ValidDisk(s) && Step(s, Op.Copy(dst, size, n, ino), s')
    ensures OnlyFileChanged(s, dst, Max(OldSize(s, dst), n), s')
    ensures s.usage + n <= MAX_INT64 ==> s'.usage == Max(0, s.usage + n)
  {
    OpenedFile(s, dst, ino, Max(OldSize(s, dst), n));
    FileMade(s, dst, ino, Max(OldSize(s, dst), n), s');
  }

  /** Opening without truncating: an empty file if there was none. */
  lemma CreateMeaning(s: Disk, p: Path, ino: nat, s': Disk)
    requires ValidDisk(s) && Step(s, Op.Create(p, ino), s')
    ensures OnlyFileChanged(s, p, OldSize(s, p), s') && s'.usage == s.usage
  {
    OpenedFile(s, p, ino, OldSize(s, p));
    FileMade(s, p, ino, OldSize(s, p), s');
  }

  /** What a chunk leaves: it ends at `pos + n` unless the file went on, and all its bytes are added to the usage. */
  lemma ChunkMeaning(s: Disk, p: Path, pos: nat, n: nat, s': Disk)
    requires ValidDisk(s) && Step(s, Op.Chunk(p, pos, n), s')
    ensures OnlyFileChanged(s, p, Max(OldSize(s, p), pos + n), s') && s'.nodes == s.nodes
    ensures s.usage + n <= MAX_INT64 ==> s'.usage == Max(0, s.usage + n)
  {
    var ino := s.nodes[p].ino;
    assert s'.sizes[ino] == Max(OldSize(s, p), pos + n);
  }

  lemma FileMade(s: Disk, p: Path, ino: nat, n: nat, s': Disk)
    requires ValidDisk(s) && Opens(s, p, ino)
    requires s'.nodes == WithDirs(s.nodes, Parent(p))[p := File(ino)] && s'.sizes == s.sizes[ino := n]
    ensures OnlyFileChanged(s, p, n, s')
  {
    ParentThroughLeaf(s.nodes, p);
    WithDirsMeaning(s.nodes, Parent(p));
    forall q | q in s'.nodes && q !in s.nodes && q != p ensures q < p && s'.nodes[q].Dir? {
      PrefixStep(p, q);
    }
  }

  lemma WriteIsStep(s: Disk, p: Path, newSize: int, n: nat, ino: nat, s': Disk)
    requires ValidDisk(s) && IsInt64(newSize) && Opens(s, p, ino) && n <= Max(newSize, 0)
    requires CanFit(s.limit, s.usage, Wrap64(newSize - OldSize(s, p)))
    requires s'.nodes == WithDirs(s.nodes, Parent(p))[p := File(ino)]
    requires s'.sizes == s.sizes[ino := 0][ino := n]
    requires s'.usage == AddUsage(s.usage, n - OldSize(s, p)) && s'.limit == s.limit
    ensures Step(s, Write(p, newSize, n, ino), s') && ValidDisk(s')
  {
    assert s'.sizes == s.sizes[ino := n];
    StepValid(s, Write(p, newSize, n, ino), s');
  }

  lemma CopyIsStep(s: Disk, dst: Path, size: nat, n: nat, ino: nat, s': Disk)
    requires ValidDisk(s) && Opens(s, dst, ino) && IsDir(s.nodes, Parent(dst)) && n <= size <= MAX_INT64
    requires CanFit(s.limit, s.usage, size)
    requires s'.nodes == s.nodes[dst := File(ino)]
    requires s'.sizes == s.sizes[ino := OldSize(s, dst)][ino := Max(OldSize(s, dst), n)]
    requires s'.usage == AddUsage(s.usage, n) && s'.limit == s.limit
    ensures Step(s, Copy(dst, size, n, ino), s') && ValidDisk(s')
  {
    assert s'.sizes == s.sizes[ino := Max(OldSize(s, dst), n)];
    StepValid(s, Copy(dst, size, n, ino), s');
  }

  lemma OpenIsStep(s: Disk, p: Path, ino: nat, s': Disk)
    requires ValidDisk(s) && Opens(s, p, ino) && IsDir(s.nodes, Parent(p))
    requires s'.nodes == s.nodes[p := File(ino)] && s'.sizes == s.sizes[ino := OldSize(s, p)]
    requires s'.usage == s.usage && s'.limit == s.limit
    ensures Step(s, Create(p, ino), s') && ValidDisk(s')
    ensures p !in s.nodes ==> s'.sizes[ino] == 0
  {
    StepValid(s, Create(p, ino), s');
  }

  lemma ChunkIsStep(s: Disk, p: Path, pos: nat, n: nat, s': Disk)
    requires ValidDisk(s) && p in s.nodes && s.nodes[p].File? && pos <= OldSize(s, p) && pos + n <= MAX_INT64
    requires CanFit(s.limit, s.usage, n)
    requires s'.nodes == s.nodes && s'.limit == s.limit && s'.usage == AddUsage(s.usage, n)
    requires s'.sizes == s.sizes[s.nodes[p].ino := Max(OldSize(s, p), pos + n)]
    ensures Step(s, Chunk(p, pos, n), s') && ValidDisk(s')
    ensures pos == OldSize(s, p) ==> KeepsCount(s, Chunk(p, pos, n), s')
  {
    StepValid(s, Chunk(p, pos, n), s');
  }

  lemma UnlinkedOnce(t: Nodes, t': Nodes, sizes: Sizes)
    requires Sized(t, sizes) && NoHardLinks(t)
    ensures SingleLinked(t, t', sizes)
  {
  }

  /** A counter that was exact stays exact in exactly the steps that `KeepsCount` names. */
  lemma StepAgreement(s: Disk, op: Op, s': Disk)
    requires ValidDisk(s) && ValidDisk(s') && Agrees(s) && Step(s, op, s')
    requires Bytes(s'.nodes, s'.sizes) <= MAX_INT64
    ensures Agrees(s') <==> KeepsCount(s, op, s')
  {
    match op {
      case Dirs => BytesOfDirs(s.nodes, s'.nodes, s.sizes);
      case Write(p, _, n, ino) =>
        OpenedFile(s, p, ino, n);
        OldSizeCounts(s, p);
      case Copy(_, _, _, _) => CopyAgreement(s, op, s');
      case Create(p, ino) => OpenedFile(s, p, ino, OldSize(s, p));
      case Chunk(_, _, _) => ChunkAgreement(s, op, s');
      case Rename(from, to) => RenameStep(s, from, to);
      case Remove(lost) => DeleteAgreement(s, s', lost);
      case Refresh =>
    }
  }

  lemma CopyAgreement(s: Disk, op: Op, s': Disk)
    requires op.Copy? && ValidDisk(s) && ValidDisk(s') && Agrees(s) && Step(s, op, s')
    requires Bytes(s'.nodes, s'.sizes) <= MAX_INT64
    ensures Agrees(s') <==> KeepsCount(s, op, s')
  {
    var was := OldSize(s, op.dst);
    OpenedFile(s, op.dst, op.ino, Max(was, op.n));
    OldSizeCounts(s, op.dst);
    Overwritten(s.usage, was, 0, op.n);
  }

  lemma ChunkAgreement(s: Disk, op: Op, s': Disk)
    requires op.Chunk? && ValidDisk(s) && ValidDisk(s') && Agrees(s) && Step(s, op, s')
    requires Bytes(s'.nodes, s'.sizes) <= MAX_INT64
    ensures Agrees(s') <==> KeepsCount(s, op, s')
  {
    ChunkStep(s, op.p, op.pos, op.n);
    OldSizeCounts(s, op.p);
    Overwritten(s.usage, OldSize(s, op.p), op.pos, op.n);
  }

  lemma ChunkStep(s: Disk, p: Path, pos: nat, n: nat)
    requires ValidDisk(s) && p in s.nodes && s.nodes[p].File?
    ensures var sizes := s.sizes[s.nodes[p].ino := Max(OldSize(s, p), pos + n)];
            && Sized(s.nodes, sizes)
            && Bytes(s.nodes, sizes) == Bytes(s.nodes, s.sizes) - OldSize(s, p) + Max(OldSize(s, p), pos + n)
  {
    var ino := s.nodes[p].ino;
    assert s.nodes[p := File(ino)] == s.nodes;
    BytesOfFile(s.nodes, s.sizes, p, ino, Max(OldSize(s, p), pos + n));
  }

  /** Writing `n` bytes at `pos` of a file of `was` bytes adds `n` bytes just when it starts at the end. */
  lemma Overwritten(usage: int, was: nat, pos: nat, n: nat)
    requires was <= usage <= MAX_INT64 && pos <= was && n <= MAX_INT64
    requires usage - was + Max(was, pos + n) <= MAX_INT64
    ensures AddUsage(usage, n) == usage - was + Max(was, pos + n) <==> n == 0 || pos == was
  {
  }

  lemma OldSizeCounts(s: Disk, p: Path)
    requires ValidDisk(s)
    ensures OldSize(s, p) <= Bytes(s.nodes, s.sizes)
  {
    if p in s.nodes && s.nodes[p].File? {
      FileCounts(s.nodes, s.sizes, p);
    }
  }

  // ---- Runs ----

  /** A sequential run on a disk that never holds 2^63 bytes. */
  ghost predicate Run(states: seq<Disk>, ops: seq<Op>) {
    && |states| == |ops| + 1
    && (forall i :: 0 <= i < |states| ==> ValidDisk(states[i]) && Bytes(states[i].nodes, states[i].sizes) <= MAX_INT64)
    && (forall i :: 0 <= i < |ops| ==> Step(states[i], ops[i], states[i + 1]))
  }

  /** What a run must not do if the counter is to stay exact; hard links are ruled out from the start. */
  ghost predicate Undisturbed(s: Disk, op: Op, s': Disk)
    requires ValidDisk(s) && Step(s, op, s')
  {
    if op.Remove? then Lost(s.nodes, op.lost, s.sizes) == 0 else KeepsCount(s, op, s')
  }

  /** Over every run from a tree without hard links the counter stays what a walk would compute. */
  lemma {:induction false} RunAgreement(states: seq<Disk>, ops: seq<Op>, k: nat)
    requires Run(states, ops) && k <= |ops|
    requires NoHardLinks(states[0].nodes) && Agrees(states[0])
    requires forall i :: 0 <= i < |ops| ==> Undisturbed(states[i], ops[i], states[i + 1])
    ensures NoHardLinks(states[k].nodes) && Agrees(states[k])
    ensures forall s' :: ValidDisk(s') && Step(states[k], Refresh, s') ==> s' == states[k]
  {
    if k > 0 {
      RunAgreement(states, ops, k - 1);
      var s, s' := states[k - 1], states[k];
      if ops[k - 1].Remove? {
        UnlinkedOnce(s.nodes, s'.nodes, s.sizes);
      }
      StepValid(s, ops[k - 1], s');
      StepAgreement(s, ops[k - 1], s');
    }
  }

  /** And it does so at every step only if no step disturbs it. */
  lemma RunAgreementMeaning(states: seq<Disk>, ops: seq<Op>)
    requires Run(states, ops) && NoHardLinks(states[0].nodes) && Agrees(states[0])
    ensures (forall k :: 0 <= k <= |ops| ==> Agrees(states[k]))
            <==> forall i :: 0 <= i < |ops| ==> Undisturbed(states[i], ops[i], states[i + 1])
  {
    if forall i :: 0 <= i < |ops| ==> Undisturbed(states[i], ops[i], states[i + 1]) {
      forall k | 0 <= k <= |ops| ensures Agrees(states[k]) {
        RunAgreement(states, ops, k);
      }
    }
    if forall k :: 0 <= k <= |ops| ==> Agrees(states[k]) {
      forall i | 0 <= i < |ops| ensures Undisturbed(states[i], ops[i], states[i + 1]) {
        assert Agrees(states[i]) && Agrees(states[i + 1]);
        StepAgreement(states[i], ops[i], states[i + 1]);
      }
    }
  }

  /** The int64 sum of the guard does not wrap around, or no usage could exceed the limit anyway. */
  ghost predicate SumFits(s: Disk, op: Op)
    requires ValidDisk(s)
  {
    match op
    case Write(p, newSize, _, _) => s.limit == MAX_INT64 || s.usage + newSize - OldSize(s, p) <= MAX_INT64
    case Copy(_, size, _, _) => s.limit == MAX_INT64 || s.usage + size <= MAX_INT64
    case _ => true
  }

  /**
   Replacing `was` bytes by up to `size` bytes that passed the guard stays within the limit, however many
   of them get through, exactly when that sum does not wrap around.
   */
  lemma GuardMeaning(limit: int, usage: int, was: int, size: int)
    requires 0 < limit <= MAX_INT64 && 0 <= usage <= limit && 0 <= was <= MAX_INT64 && IsInt64(size)
    requires CanFit(limit, usage, Wrap64(size - was))
    ensures (forall n: nat :: n <= Max(size, 0) ==> StaysWithin(limit, usage, was, n)) <==>
              limit == MAX_INT64 || usage + Max(size, 0) - was <= MAX_INT64
  {
    if limit < MAX_INT64 && usage + Max(size, 0) - was > MAX_INT64 {
      assert !StaysWithin(limit, usage, was, limit + 1 - usage + was);
    }
  }

  /** The usage after `n` bytes replaced `was` bytes is within the limit. */
  ghost predicate StaysWithin(limit: int, usage: int, was: int, n: nat)
    requires IsInt64(usage) && IsInt64(n - was)
  {
    AddUsage(usage, n - was) <= limit
  }

  /** A step stays within the limit, and a refresh does exactly when the files on the disk do. */
  lemma StepWithinLimit(s: Disk, op: Op, s': Disk)
    requires ValidDisk(s) && Step(s, op, s') && SumFits(s, op)
    requires 0 < s.limit && 0 <= s.usage <= s.limit
    ensures 0 <= s'.usage && s'.limit == s.limit
    ensures s'.usage <= s'.limit <==> (op.Refresh? ==> Bytes(s.nodes, s.sizes) <= s.limit)
  {
    match op {
      case Remove(_) =>
      case Write(p, newSize, n, ino) =>
        CanFitMeaning(s.limit, s.usage, Wrap64(newSize - OldSize(s, p)));
      case _ =>
    }
  }

  /**
   With a limit, a usage that starts within it is within it at every step of every run that refreshes only
   while the files on the disk are within it too.
   */
  lemma {:induction false} RunWithinLimit(states: seq<Disk>, ops: seq<Op>, k: nat)
    requires Run(states, ops) && k <= |ops|
    requires 0 < states[0].limit && 0 <= states[0].usage <= states[0].limit
    requires forall i :: 0 <= i < |ops| ==> SumFits(states[i], ops[i])
    requires forall i :: 0 <= i < |ops| && ops[i].Refresh? ==> Bytes(states[i].nodes, states[i].sizes) <= states[i].limit
    ensures states[k].limit == states[0].limit && 0 <= states[k].usage <= states[k].limit
  {
    if k > 0 {
      RunWithinLimit(states, ops, k - 1);
      StepWithinLimit(states[k - 1], ops[k - 1], states[k]);
    }
  }

  /**
   From a tree without hard links and an exact counter within the limit, the files on the disk stay within
   the limit at every step, refreshes included.
   */
  lemma {:induction false} ExactRunWithinLimit(states: seq<Disk>, ops: seq<Op>, k: nat)
    requires Run(states, ops) && k <= |ops|
    requires NoHardLinks(states[0].nodes) && Agrees(states[0])
    requires forall i :: 0 <= i < |ops| ==> Undisturbed(states[i], ops[i], states[i + 1])
    requires 0 < states[0].limit && states[0].usage <= states[0].limit
    requires forall i :: 0 <= i < |ops| ==> SumFits(states[i], ops[i])
    ensures states[k].limit == states[0].limit && Bytes(states[k].nodes, states[k].sizes) == states[k].usage <= states[k].limit
  {
    RunAgreement(states, ops, k);
    if k > 0 {
      ExactRunWithinLimit(states, ops, k - 1);
      StepWithinLimit(states[k - 1], ops[k - 1], states[k]);
    }
  }

  /** Without the bound on the sum a guarded write can end above the limit. */
  lemma OverflowPassesTheGuard(s: Disk, p: Path)
    requires ValidDisk(s) && 0 < s.limit < MAX_INT64 && 0 < s.usage <= s.limit
    requires p != [] && CleanPath(p) && IsDir(s.nodes, Parent(p)) && p !in s.nodes
    ensures exists newSize, n, ino, s' :: Step(s, Write(p, newSize, n, ino), s') && s'.usage > s'.limit
  {
    var ino := FreshInode(s.sizes.Keys);
    var n := s.limit + 1 - s.usage;
    var t := WithDirs(s.nodes, Parent(p))[p := File(ino)];
    var s' := Disk(t, s.sizes[ino := n], s.limit, AddUsage(s.usage, n));
    assert !ThroughLeaf(s.nodes, p) by {
      ResolveMeaning(s.nodes, p);
      ResolveMeaning(s.nodes, Parent(p));
      assert Resolve(s.nodes, p) == Failure(ENOENT);
    }
    assert Step(s, Write(p, MAX_INT64, n, ino), s');
  }

  lemma FreshInode(used: set<nat>) returns (i: nat)
    ensures i !in used
  {
    i := 0;
    var todo := used;
    while todo != {}
      invariant todo <= used && forall j :: j in used && j !in todo ==> j < i
      decreases todo
    {
      var j :| j in todo;
      todo := todo - {j};
      if i <= j {
        i := j + 1;
      }
    }
  }
}
