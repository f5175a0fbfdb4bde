/**
 The sandboxed filesystem with its usage counter: the kernel calls the code makes, `Quota`
 (fs_quota.go) and the batched recursive delete (removeall_unix.go).

 `stuck` is an arbitrary fixed set of entries the kernel refuses to remove, `locked` an arbitrary predicate
 on the paths it refuses to create, open for writing, or move; `linked` are the links that lead to directories.
 */
module QuotaFS {
  import opened Prelude
  import opened Paths
  import opened Tree
  import opened Removal
  import opened Accounting

  /** The names in a directory; the kernel lists them in an order of its own. */
  method ListNames(t: Nodes, d: Path) returns (names: seq<Name>)
    ensures forall n :: n in names <==> n in Kids(t, d)
    ensures forall i, j :: 0 <= i < j < |names| ==> names[i] != names[j]
  {
    var todo := Kids(t, d);
    names := [];
    while todo != {}
      invariant todo <= Kids(t, d)
      invariant forall n :: n in names <==> n in Kids(t, d) - todo
      invariant forall i, j :: 0 <= i < j < |names| ==> names[i] != names[j]
      decreases todo
    {
      var n :| n in todo;
      assert n !in names;
      todo := todo - {n};
      names := names + [n];
    }
  }

  /** An open directory that is being read in batches. */
  class DirStream {
    const dir: Path
    var rest: seq<Name>
    ghost const entries: set<Name>
    ghost var given: set<Name>

    ghost predicate Valid()
      reads this
    {
      && given <= entries
      && (forall n :: n in rest <==> n in entries - given)
      && (forall i, j :: 0 <= i < j < |rest| ==> rest[i] != rest[j])
    }

    constructor (t: Nodes, d: Path)
      ensures Valid() && dir == d && entries == Kids(t, d) && given == {}
    {
      dir := d;
      entries := Kids(t, d);
      given := {};
      new;
      rest := ListNames(t, d);
    }

    /**
     Nothing is promised once an entry of the directory is gone; until then every batch lists entries
     not listed before, and a short batch ends the listing.
     */
    method Readdirnames(t: Nodes, n: nat) returns (names: seq<Name>)
      requires Valid() && n > 0
      modifies this
      ensures |names| <= n
      ensures Kids(t, dir) == entries ==>
                && Valid()
                && (forall x :: x in names ==> x in entries - old(given))
                && given == old(given) + (set x | x in names)
                && (|names| < n ==> given == entries)
    {
      var k := if n <= |rest| then n else |rest|;
      names := rest[..k];
      ghost var listed := rest;
      assert forall x :: x in listed <==> x in listed[..k] || x in listed[k..];
      forall x | x in listed[k..] ensures x !in listed[..k] {
        var j :| 0 <= j < |listed[k..]| && listed[k..][j] == x;
        assert listed[k + j] == x;
      }
      given := given + (set x | x in names);
      rest := rest[k..];
    }
  }

  /** Nothing that is missing on the way to `p` is locked. */
  ghost predicate Unlocked(t: Nodes, p: Path, locked: Path -> bool) {
    forall k :: 0 <= k <= |p| && p[..k] !in t ==> !locked(p[..k])
  }

  lemma UnlockedParent(t: Nodes, p: Path, locked: Path -> bool)
    requires p != []
    ensures Unlocked(t, p, locked) <==> Unlocked(t, Parent(p), locked) && (p !in t ==> !locked(p))
  {
    var d := Parent(p);
    assert p[..|p|] == p;
    assert forall k :: 0 <= k <= |d| ==> d[..k] == p[..k];
    if Unlocked(t, p, locked) {
      forall k | 0 <= k <= |d| && d[..k] !in t ensures !locked(d[..k]) {
        assert p[..k] == d[..k];
      }
    }
    if Unlocked(t, d, locked) && (p !in t ==> !locked(p)) {
      forall k | 0 <= k <= |p| && p[..k] !in t ensures !locked(p[..k]) {
        assert k < |p| ==> p[..k] == d[..k];
      }
    }
  }

  lemma UnlockedAbove(t: Nodes, p: Path, locked: Path -> bool)
    requires p != []
    ensures Unlocked(t, Parent(p), locked) <==> forall k :: 0 <= k < |p| && p[..k] !in t ==> !locked(p[..k])
  {
    var d := Parent(p);
    assert forall k :: 0 <= k < |p| ==> d[..k] == p[..k];
    if Unlocked(t, d, locked) {
      forall k | 0 <= k < |p| && p[..k] !in t ensures !locked(p[..k]) {
        assert d[..k] !in t;
      }
    }
    if forall k :: 0 <= k < |p| && p[..k] !in t ==> !locked(p[..k]) {
      forall k | 0 <= k <= |d| && d[..k] !in t ensures !locked(d[..k]) {
        assert p[..k] !in t;
      }
    }
  }

  class Quota {
    const base: Path
    const stuck: set<Path>
    const locked: Path -> bool
    const linked: Path -> bool
    var nodes: Nodes
    var sizes: Sizes
    var limit: int
    var usage: int

    ghost predicate Valid()
      reads this
    {
      && base != [] && CleanPath(base)
      && ValidDisk(View())
    }

    function View(): Disk
      reads this
    {
      Disk(nodes, sizes, limit, usage)
    }

    ghost predicate IsFile(p: Path, ino: nat)
      reads this
    {
      p in nodes && nodes[p] == File(ino) && ino in sizes
    }

    // ---- fs_quota.go ----

    /** `NewQuota` over an existing disk: nothing is known to be used yet. */
    constructor (base: Path, stuck: set<Path>, locked: Path -> bool, linked: Path -> bool, nodes: Nodes, sizes: Sizes, limit: int)
      requires base != [] && CleanPath(base) && WellFormed(nodes) && Sized(nodes, sizes)
      requires (forall i :: i in sizes ==> sizes[i] <= MAX_INT64) && -1 <= limit <= MAX_INT64
      ensures Valid()
      ensures this.nodes == nodes && this.sizes == sizes && this.stuck == stuck && this.base == base
      ensures this.limit == limit && usage == 0 && this.locked == locked && this.linked == linked
    {
      this.base := base;
      this.stuck := stuck;
      this.locked := locked;
      this.linked := linked;
      this.nodes := nodes;
      this.sizes := sizes;
      this.limit := limit;
      usage := 0;
    }

    /** Adds `i` to the usage; a sum below zero is stored as zero. */
    method Add(i: int) returns (r: int)
      requires IsInt64(i) && IsInt64(usage)
      modifies this`usage
      ensures usage == AddUsage(old(usage), i) && r == usage
    {
      if Wrap64(usage + i) < 0 {
        usage := 0;
        return 0;
      }
      usage := Wrap64(usage + i);
      return usage;
    }

    /** The guard before every write. */
    predicate CanFit(size: int)
      requires IsInt64(size) && IsInt64(usage)
      reads this`limit, this`usage
    {
      Accounting.CanFit(limit, usage, size)
    }

    // ---- System calls ----

    function Lstat(p: Path): Result<Entry, Errno>
      reads this`nodes
    {
      Resolve(nodes, p)
    }

    /** Removes the name `name` from directory `dir`. */
    method UnlinkRaw(dir: Path, name: Name, rmdir: bool) returns (err: Option<Errno>)
      requires Valid() && dir in nodes
      modifies this`nodes
      ensures Valid()
      ensures err == None <==> dir + [name] in old(nodes) && dir + [name] !in nodes
      ensures err == None ==>
                && nodes == old(nodes) - {dir + [name]} && dir + [name] !in stuck
                && rmdir == old(nodes)[dir + [name]].Dir?
                && Kids(old(nodes), dir + [name]) == {}
      ensures err != None ==> nodes == old(nodes)
      ensures !IsDir(nodes, dir) ==> err == Some(ENOTDIR)
      ensures IsDir(old(nodes), dir) ==> (err == Some(ENOENT) <==> dir + [name] !in old(nodes))
      ensures IsDir(old(nodes), dir + [name]) && !rmdir ==> err in {Some(EISDIR), Some(EPERM), Some(EACCES)}
      ensures dir + [name] in nodes && (rmdir <==> nodes[dir + [name]].Dir?) ==>
                dir + [name] in stuck || Kids(nodes, dir + [name]) != {}
    {
      var p := dir + [name];
      ghost var t := nodes;
      assert Parent(p) == dir;
      if !nodes[dir].Dir? {
        return Some(ENOTDIR);
      }
      if p !in nodes {
        return Some(ENOENT);
      }
      if rmdir {
        if !nodes[p].Dir? {
          return Some(ENOTDIR);
        }
        if Kids(nodes, p) != {} {
          return Some(ENOTEMPTY);
        }
      } else if nodes[p].Dir? {
        var e: Errno :| e in {EISDIR, EPERM, EACCES};
        return Some(e);
      }
      if p in stuck {
        var e: Errno :| e in {EPERM, EACCES, EBUSY};
        return Some(e);
      }
      nodes := nodes - {p};
      err := None;
      if !t[p].Dir? {
        LeafHasNoKids(t, p);
      }
      RemoveKeepsWellFormed(t, p);
    }

    /** `Quota.unlinkat`: a regular file is charged before the kernel is asked to remove it. */
    method Unlinkat(dir: Path, name: Name, rmdir: bool) returns (err: Option<Errno>)
      requires Valid() && dir in nodes
      modifies this`nodes, this`usage
      ensures Valid()
      ensures err == None <==> dir + [name] in old(nodes) && dir + [name] !in nodes
      ensures err == None ==>
                && nodes == old(nodes) - {dir + [name]} && dir + [name] !in stuck
                && rmdir == old(nodes)[dir + [name]].Dir?
                && Kids(old(nodes), dir + [name]) == {}
      ensures err != None ==> nodes == old(nodes)
      ensures !IsDir(nodes, dir) ==> err == Some(ENOTDIR)
      ensures IsDir(old(nodes), dir) ==> (err == Some(ENOENT) <==> dir + [name] !in old(nodes))
      ensures IsDir(old(nodes), dir + [name]) && !rmdir ==> err in {Some(EISDIR), Some(EPERM), Some(EACCES)}
      ensures dir + [name] in nodes && (rmdir <==> nodes[dir + [name]].Dir?) ==>
                dir + [name] in stuck || Kids(nodes, dir + [name]) != {}
      ensures Charged(old(usage), old(nodes), usage, nodes, sizes, if rmdir then {} else {dir + [name]} * old(nodes).Keys * stuck)
      ensures usage ==
                if !rmdir && IsDir(old(nodes), dir) && dir + [name] in old(nodes) && old(nodes)[dir + [name]].File?
                then AddUsage(old(usage), -(sizes[old(nodes)[dir + [name]].ino] as int)) else old(usage)
    {
      var p := dir + [name];
      ghost var t, u := nodes, usage;
      assert Parent(p) == dir;
      if !rmdir && nodes[dir].Dir? && p in nodes && nodes[p].File? {
        var size: int := sizes[nodes[p].ino];
        var _ := Add(-size);
        LeafHasNoKids(nodes, p);
      }
      err := UnlinkRaw(dir, name, rmdir);
      UnlinkCharge(u, t, usage, nodes, sizes, p, rmdir, stuck);
    }

    // ---- removeall_unix.go ----

    /**
     Removes everything strictly below the directory `parent + [base]` that can be removed, reading
     the directory in batches of `reqSize` names.
     */
    method RemoveContentsFrom(parent: Path, base: Name, reqSize: nat)
      requires Valid() && reqSize > 0 && IsDir(nodes, parent + [base])
      modifies this`nodes, this`usage
      ensures Valid()
      ensures Cleared(old(nodes), nodes, parent + [base], stuck)
      ensures Charged(old(usage), old(nodes), usage, nodes, sizes,
                      Pinned(old(nodes), stuck, parent + [base]) - {parent + [base]})
      decreases Below(nodes, parent + [base]), 6
    {
      var dir := parent + [base];
      ghost var t, u := nodes, usage;
      ghost var tried: seq<Name> := [];
      EmptyingStarts(u, t, sizes, dir, stuck);
      var more := true;
      while more
        invariant Valid() && Emptying(u, t, usage, nodes, sizes, dir, stuck, tried)
        invariant !more ==> AllIn(Kids(nodes, dir), tried)
        decreases more, Kids(nodes, dir)
      {
        var respSize;
        respSize, tried := ClearPass(dir, reqSize, u, t, tried);
        if respSize < reqSize {
          more := false;
        }
      }
      EmptyingEnds(u, t, usage, nodes, sizes, dir, stuck, tried);
    }

    /**
     One pass over the directory as it is listed when it is opened: batch after batch, until one of them
     removed an entry or the listing ends.  `respSize` is the size of the last batch.
     */
    method ClearPass(dir: Path, reqSize: nat, ghost u: int, ghost t: Nodes, ghost done: seq<Name>)
      returns (respSize: nat, ghost tried: seq<Name>)
      requires Valid() && reqSize > 0 && IsDir(t, dir)
      requires Emptying(u, t, usage, nodes, sizes, dir, stuck, done)
      modifies this`nodes, this`usage
      ensures Valid() && Emptying(u, t, usage, nodes, sizes, dir, stuck, tried)
      ensures if respSize < reqSize then AllIn(Kids(nodes, dir), tried) else Kids(nodes, dir) < Kids(old(nodes), dir)
      decreases Below(t, dir), 5
    {
      ghost var kids := Kids(nodes, dir);
      var file := new DirStream(nodes, dir);
      tried := done;
      respSize := 0;
      var again := true;
      while again
        invariant Valid() && Emptying(u, t, usage, nodes, sizes, dir, stuck, tried)
        invariant fresh(file) && file.dir == dir && file.entries == kids
        invariant again ==> Kids(nodes, dir) == kids && file.Valid() && AllIn(file.given, tried)
        invariant !again ==> if respSize < reqSize then AllIn(Kids(nodes, dir), tried) else Kids(nodes, dir) < kids
        decreases again, kids - file.given
      {
        respSize, again, tried := ClearBatch(file, reqSize, u, t, tried);
      }
    }

    /**
     One batch of a pass.  One entry gone: the listing can no longer be trusted.  None gone: `again`, go on
     in the listing.
     */
    method ClearBatch(file: DirStream, reqSize: nat, ghost u: int, ghost t: Nodes, ghost done: seq<Name>)
      returns (respSize: nat, again: bool, ghost tried: seq<Name>)
      requires Valid() && reqSize > 0 && IsDir(t, file.dir)
      requires Emptying(u, t, usage, nodes, sizes, file.dir, stuck, done)
      requires file.Valid() && Kids(nodes, file.dir) == file.entries && AllIn(file.given, done)
      modifies this`nodes, this`usage, file
      ensures Valid() && Emptying(u, t, usage, nodes, sizes, file.dir, stuck, tried)
      ensures again ==>
                && Kids(nodes, file.dir) == file.entries && file.Valid()
                && AllIn(file.given, tried) && old(file.given) < file.given
      ensures !again ==> if respSize < reqSize then AllIn(Kids(nodes, file.dir), tried) else Kids(nodes, file.dir) < file.entries
      decreases Below(t, file.dir), 4
    {
      ghost var given := file.given;
      var names := file.Readdirnames(nodes, reqSize);
      respSize := |names|;
      var numErr := ClearNames(file.dir, names, reqSize, u, t, done);
      AllInMore(given, done, names);
      tried := done + names;
      again := numErr == reqSize;
      if again {
        assert names[0] in file.given - given;
      }
    }

    /** The names of one batch, after those of the batches before it. */
    method ClearNames(dir: Path, names: seq<Name>, reqSize: nat, ghost u: int, ghost t: Nodes, ghost done: seq<Name>)
      returns (numErr: nat)
      requires Valid() && reqSize > 0 && IsDir(t, dir) && NamesIn(nodes, dir, names)
      requires Emptying(u, t, usage, nodes, sizes, dir, stuck, done)
      modifies this`nodes, this`usage
      ensures Valid() && Emptying(u, t, usage, nodes, sizes, dir, stuck, done + names)
      ensures numErr <= |names|
      ensures numErr == |names| ==> Kids(nodes, dir) == Kids(old(nodes), dir)
      ensures numErr < |names| ==> Kids(nodes, dir) < Kids(old(nodes), dir)
      decreases Below(t, dir), 3, 1
    {
      ghost var before, cost := nodes, usage;
      EmptyingBelow(u, t, usage, nodes, sizes, dir, stuck, done);
      numErr := RemoveNames(dir, names, reqSize);
      EmptyingContinues(u, t, cost, before, usage, nodes, sizes, dir, stuck, done, names);
    }

    /** One batch: how many of the names could not be removed, and so whether any entry went. */
    method RemoveNames(dir: Path, names: seq<Name>, reqSize: nat) returns (numErr: nat)
      requires Valid() && reqSize > 0 && IsDir(nodes, dir)
      requires NamesIn(nodes, dir, names)
      modifies this`nodes, this`usage
      ensures Valid()
      ensures Emptying(old(usage), old(nodes), usage, nodes, sizes, dir, stuck, names)
      ensures numErr <= |names|
      ensures numErr == |names| ==> Kids(nodes, dir) == Kids(old(nodes), dir)
      ensures numErr < |names| ==> Kids(nodes, dir) < Kids(old(nodes), dir)
      decreases Below(nodes, dir), 3, 0
    {
      ghost var t, u := nodes, usage;
      CountedStarts(u, t, sizes, dir, stuck, names);
      numErr := RemoveEach(dir, names, reqSize, u, t, sizes);
      CountedEnds(u, t, usage, nodes, sizes, dir, stuck, names, numErr);
      KidsWithin(t, nodes, dir);
      SubsetSize(Kids(nodes, dir), Kids(t, dir));
    }

    /** The loop over the names. */
    method RemoveEach(dir: Path, names: seq<Name>, reqSize: nat, ghost u: int, ghost t: Nodes, ghost s: Sizes) returns (numErr: nat)
      requires Valid() && reqSize > 0 && IsDir(t, dir) && NamesIn(t, dir, names)
      requires sizes == s && Counted(u, t, usage, nodes, s, dir, stuck, names[..0], 0)
      modifies this`nodes, this`usage
      ensures Valid() && Counted(u, t, usage, nodes, s, dir, stuck, names[..|names|], numErr)
      decreases Below(t, dir), 2
    {
      numErr := 0;
      for i := 0 to |names|
        invariant Valid() && Counted(u, t, usage, nodes, s, dir, stuck, names[..i], numErr)
      {
        numErr := CountName(dir, names, i, numErr, reqSize, u, t);
      }
    }

    /** One round of that loop. */
    method CountName(dir: Path, names: seq<Name>, i: nat, numErr: nat, reqSize: nat, ghost u: int, ghost t: Nodes)
      returns (numErr': nat)
      requires Valid() && reqSize > 0 && IsDir(t, dir) && NamesIn(t, dir, names) && i < |names|
      requires Counted(u, t, usage, nodes, sizes, dir, stuck, names[..i], numErr)
      modifies this`nodes, this`usage
      ensures Valid() && Counted(u, t, usage, nodes, sizes, dir, stuck, names[..i + 1], numErr')
      decreases Below(t, dir), 1
    {
      NextName(t, dir, names, i);
      var err := RemoveName(dir, names[i], reqSize, u, t, names[..i]);
      numErr' := if err != None then numErr + 1 else numErr;
    }

    method RemoveName(dir: Path, name: Name, reqSize: nat, ghost u: int, ghost t: Nodes, ghost done: seq<Name>)
      returns (err: Option<Errno>)
      requires Valid() && reqSize > 0 && IsDir(t, dir) && name in Kids(t, dir)
      requires Emptying(u, t, usage, nodes, sizes, dir, stuck, done)
      modifies this`nodes, this`usage
      ensures Valid() && Emptying(u, t, usage, nodes, sizes, dir, stuck, done + [name])
      ensures if err != None then |Kids(nodes, dir)| == |Kids(old(nodes), dir)| else |Kids(nodes, dir)| < |Kids(t, dir)|
      decreases Below(t, dir), 0
    {
      ghost var before, cost := nodes, usage;
      EmptyingChild(u, t, usage, nodes, sizes, dir, stuck, done, name);
      err := RemoveAllFrom(dir, name, reqSize);
      EmptyingName(u, t, cost, before, usage, nodes, sizes, dir, stuck, done, name);
    }

    /** Removes the entry `parent + [base]` and everything below it that can be removed. */
    method RemoveAllFrom(parent: Path, base: Name, reqSize: nat) returns (err: Option<Errno>)
      requires Valid() && reqSize > 0 && parent in nodes
      modifies this`nodes, this`usage
      ensures Valid()
      ensures nodes == Shed(old(nodes), parent + [base], stuck)
      ensures IsDir(old(nodes), parent) ==> (err == None <==> parent + [base] !in nodes)
      ensures !IsDir(old(nodes), parent) ==> err != None
      ensures Charged(old(usage), old(nodes), usage, nodes, sizes, Pinned(old(nodes), stuck, parent + [base]))
      decreases Below(nodes, parent + [base]), 8
    {
      var p := parent + [base];
      ghost var t, u := nodes, usage;
      ResolveMeaning(t, p);
      assert Parent(p) == parent && p <= p;
      err := Unlinkat(parent, base, false);
      if !IsDir(t, p) {
        LeafDone(u, t, usage, nodes, sizes, p, stuck);
      }
      if err == None || err == Some(ENOENT) {
        return None;
      }
      if err != Some(EISDIR) && err != Some(EPERM) && err != Some(EACCES) {
        return err;
      }
      match Lstat(p) {
        case Failure(e) =>
          return if e == ENOENT then None else Some(e);
        case Success(e) =>
          if !e.Dir? {
            return err;
          }
      }
      var gone := RemoveDirectory(parent, base, reqSize);
      return if gone then None else err;
    }

    /** The directory case: clear it, then try to remove it. */
    method RemoveDirectory(parent: Path, base: Name, reqSize: nat) returns (gone: bool)
      requires Valid() && reqSize > 0 && IsDir(nodes, parent) && IsDir(nodes, parent + [base])
      modifies this`nodes, this`usage
      ensures Valid()
      ensures nodes == Shed(old(nodes), parent + [base], stuck)
      ensures gone <==> parent + [base] !in nodes
      ensures Charged(old(usage), old(nodes), usage, nodes, sizes, Pinned(old(nodes), stuck, parent + [base]))
      decreases Below(nodes, parent + [base]), 7
    {
      var p := parent + [base];
      ghost var t, u := nodes, usage;
      RemoveContentsFrom(parent, base, reqSize);
      ghost var t1, u1 := nodes, usage;
      HeldByRest(t, t1, p, stuck);
      var unlinkErr := Unlinkat(parent, base, true);
      ShedAfterClearing(t, t1, nodes, p, stuck);
      ChargedDir(u, t, u1, t1, usage, nodes, sizes, stuck, p);
      return unlinkErr == None || unlinkErr == Some(ENOENT);
    }

    // ---- Removal by path ----

    /** `RemoveStat`: removes a file, or an empty directory, and says what it was. */
    method RemoveStat(p: Path) returns (r: Result<Entry, Errno>)
      requires Valid() && CleanPath(p)
      modifies this`nodes
      ensures Valid()
      ensures r.Success? <==> p != [] && p in old(nodes) && p !in nodes
      ensures r.Success? ==>
                && r.value == old(nodes)[p] && nodes == old(nodes) - {p}
                && p !in stuck && Kids(old(nodes), p) == {}
      ensures r.Failure? ==> nodes == old(nodes)
      ensures r == Failure(ENOENT) <==> p !in old(nodes) && !ThroughLeaf(old(nodes), p)
      ensures p in nodes && p != [] ==> p in stuck || Kids(nodes, p) != {}
    {
      ResolveMeaning(nodes, p);
      if p == [] {
        return Failure(EINVAL);
      }
      var s := Lstat(p);
      if s.Failure? {
        return s;
      }
      ResolveMeaning(nodes, Parent(p));
      assert p == Parent(p) + [Last(p)];
      var err := UnlinkRaw(Parent(p), Last(p), s.value.Dir?);
      return if err == None then s else Failure(err.value);
    }

    /** `Quota.Remove`: like `RemoveStat`, and a removed regular file is charged. */
    method Remove(p: Path) returns (err: Option<Errno>)
      requires Valid() && CleanPath(p)
      modifies this`nodes, this`usage
      ensures Valid()
      ensures err == None <==> p != [] && p in old(nodes) && p !in nodes
      ensures err == None ==>
                && nodes == old(nodes) - {p} && p !in stuck && Kids(old(nodes), p) == {}
      ensures err != None ==> nodes == old(nodes) && usage == old(usage)
      ensures err == Some(ENOENT) <==> p !in old(nodes) && !ThroughLeaf(old(nodes), p)
      ensures p in nodes && p != [] ==> p in stuck || Kids(nodes, p) != {}
      ensures Charged(old(usage), old(nodes), usage, nodes, sizes, {})
    {
      ghost var t := nodes;
      var s := RemoveStat(p);
      if s.Failure? {
        NoCharge(usage, t, sizes, {});
        return Some(s.error);
      }
      if !s.value.File? {
        OtherGone(usage, t, p, sizes);
        return None;
      }
      FileGone(usage, t, p, sizes);
      var size: int := sizes[s.value.ino];
      var _ := Add(-size);
      return None;
    }

    /**
     `Quota.RemoveAll`.  Everything at or below the path is removed except pinned entries and the
     directories leading to them.  The result is nil exactly when the target is gone and its path does
     not run through a regular file.  The charge is exact when every pinned file is empty, and otherwise
     only when it ends at zero anyway.
     */
    method RemoveAll(name: string, reqSize: nat) returns (err: Option<Errno>)
      requires Valid() && reqSize > 0
      modifies this`nodes, this`usage
      ensures Valid()
      ensures Locate(base, name).Failure? || Locate(base, name).value == [] ==>
                err == Some(EBADPATH) && nodes == old(nodes) && usage == old(usage)
      ensures Locate(base, name).Success? && Locate(base, name).value != [] ==>
                var p := Locate(base, name).value;
                && nodes == Shed(old(nodes), p, stuck)
                && (err == None <==> p !in nodes && !ThroughLeaf(old(nodes), p))
                && Charged(old(usage), old(nodes), usage, nodes, sizes, Pinned(old(nodes), stuck, p))
                && (old(usage) >= 0 ==>
                      (usage == Spend(old(usage), Gone(old(nodes), nodes, sizes)) <==>
                         || Spend(old(usage), Gone(old(nodes), nodes, sizes)) == 0
                         || AllEmpty(old(nodes), Pinned(old(nodes), stuck, p), sizes)))
    {
      LocateIsClean(base, name);
      var r := UnsafePath(Absolute(base), name);
      if r.Failure? {
        return Some(r.error);
      }
      if r.value == "." {
        return Some(EBADPATH);
      }
      if Locate(base, name).value != [] {
        CleanIsNoDot(Locate(base, name).value);
      }
      err := RemoveAllPath(r.value, Locate(base, name).value, reqSize);
    }

    /** `removeAll` on the cleaned relative path of `p`. */
    method RemoveAllPath(path: string, ghost p: Path, reqSize: nat) returns (err: Option<Errno>)
      requires Valid() && reqSize > 0
      requires p != [] && CleanPath(p) && path == Join(p)
      modifies this`nodes, this`usage
      ensures Valid()
      ensures nodes == Shed(old(nodes), p, stuck)
      ensures err == None <==> p !in nodes && !ThroughLeaf(old(nodes), p)
      ensures Charged(old(usage), old(nodes), usage, nodes, sizes, Pinned(old(nodes), stuck, p))
      ensures old(usage) >= 0 ==>
                (usage == Spend(old(usage), Gone(old(nodes), nodes, sizes)) <==>
                   || Spend(old(usage), Gone(old(nodes), nodes, sizes)) == 0
                   || AllEmpty(old(nodes), Pinned(old(nodes), stuck, p), sizes))
    {
      ghost var t, u := nodes, usage;
      CleanIsNoDot(p);
      if path == "" {
        return None;
      }
      if EndsWithDot(path) {
        return Some(EINVAL);
      }
      var target, dir, name := OpenParent(path, p);
      err := None;
      var done := RemoveSimple(target);
      if !done {
        err := RemoveBelow(dir, name, reqSize);
      }
      if u >= 0 {
        ExactCharge(u, t, usage, nodes, sizes, Pinned(t, stuck, p));
      }
    }

    /** What `path` and its two halves denote, each resolved against the base on its own. */
    method OpenParent(path: string, ghost p: Path) returns (target: Path, dir: Path, name: Name)
      requires base != [] && CleanPath(base)
      requires p != [] && CleanPath(p) && path == Join(p)
      ensures target == p && dir + [name] == p
    {
      LocateWhole(base, p);
      InitIsClean(p);
      LocateInverts(base, Parent(p));
      target := Locate(base, path).value;
      var parentDir;
      parentDir, name := SplitPath(path);
      SplitOfClean(p, parentDir, name);
      dir := Locate(base, parentDir).value;
    }

    /** The simple case of `removeAll`: `Remove` works, or there is nothing to remove. */
    method RemoveSimple(p: Path) returns (done: bool)
      requires Valid() && p != [] && CleanPath(p)
      modifies this`nodes, this`usage
      ensures Valid()
      ensures !done ==> nodes == old(nodes) && usage == old(usage)
      ensures done ==>
                && nodes == Shed(old(nodes), p, stuck) && p !in nodes && !ThroughLeaf(old(nodes), p)
                && Charged(old(usage), old(nodes), usage, nodes, sizes, Pinned(old(nodes), stuck, p))
    {
      ghost var t := nodes;
      ResolveMeaning(t, p);
      var err := Remove(p);
      done := err == None || err == Some(ENOENT);
      if done {
        ShedByRemove(t, nodes, p, stuck);
        NonePinned(t, p, stuck);
      }
    }

    /** The recursive part of `removeAll`: open the parent, delete the entry from it. */
    method RemoveBelow(dir: Path, name: Name, reqSize: nat) returns (err: Option<Errno>)
      requires Valid() && reqSize > 0
      modifies this`nodes, this`usage
      ensures Valid()
      ensures nodes == Shed(old(nodes), dir + [name], stuck)
      ensures err == None <==> dir + [name] !in nodes && !ThroughLeaf(old(nodes), dir + [name])
      ensures Charged(old(usage), old(nodes), usage, nodes, sizes, Pinned(old(nodes), stuck, dir + [name]))
    {
      ghost var t, p := nodes, dir + [name];
      ResolveMeaning(t, p);
      ResolveMeaning(t, dir);
      assert Parent(p) == dir;
      var parent := Lstat(dir);
      if parent.Failure? {
        ShedByRemove(t, nodes, p, stuck);
        NonePinned(t, p, stuck);
        NoCharge(usage, t, sizes, {});
        return if parent.error == ENOENT then None else Some(parent.error);
      }
      err := RemoveAllFrom(dir, name, reqSize);
    }

    // ---- Creating and moving ----

    /** `Mkdir`: one directory in an existing directory. */
    method Mkdir(p: Path) returns (err: Option<Errno>)
      requires Valid() && p != [] && CleanPath(p)
      modifies this`nodes
      ensures Valid()
      ensures err == None <==> IsDir(old(nodes), Parent(p)) && p !in old(nodes) && !locked(p)
      ensures nodes == if err == None then old(nodes)[p := Dir] else old(nodes)
    {
      ResolveMeaning(nodes, Parent(p));
      var d := Lstat(Parent(p));
      if d.Failure? {
        return Some(d.error);
      }
      if !d.value.Dir? {
        return Some(ENOTDIR);
      }
      if p in nodes {
        return Some(EEXIST);
      }
      if locked(p) {
        return Some(EACCES);
      }
      nodes := nodes[p := Dir];
      err := None;
    }

    /** `mkdirAll`: the directory and whatever is missing on the way to it, and nothing else. */
    method MkdirAll(p: Path) returns (err: Option<Errno>)
      requires Valid() && CleanPath(p)
      modifies this`nodes
      ensures Valid()
      ensures OnlyDirsAdded(old(nodes), nodes) && forall q :: q in nodes && q !in old(nodes) ==> q <= p
      ensures err == None <==>
                if p in old(nodes) then old(nodes)[p].Dir? || (old(nodes)[p].Link? && linked(p))
                else !ThroughLeaf(old(nodes), p) && forall k :: 0 <= k <= |p| && p[..k] !in old(nodes) ==> !locked(p[..k])
      ensures err == None ==> nodes == WithDirs(old(nodes), p) && !ThroughLeaf(old(nodes), p)
      decreases |p|
    {
      ResolveMeaning(nodes, p);
      var dir := Lstat(p);
      if dir.Success? {
        var isDir := dir.value.Dir? || (dir.value.Link? && linked(p));
        return if isDir then None else Some(ENOTDIR);
      }
      ghost var t := nodes;
      ParentThroughLeaf(t, p);
      UnlockedParent(t, p, locked);
      AllThere(t, Parent(p), locked);
      if |p| > 1 {
        err := MkdirAll(Parent(p));
        if err != None {
          forall q | q in nodes && q !in t ensures q <= p {
            PrefixStep(p, q);
          }
          return;
        }
      }
      // Nobody else changes the tree, so a refused Mkdir has nothing to look up again.
      err := Mkdir(p);
    }

    /** `OpenFileat` with O_CREATE: an existing file is truncated only if asked to. */
    method OpenFile(p: Path, trunc: bool) returns (r: Result<nat, Errno>)
      requires Valid() && CleanPath(p)
      modifies this`nodes, this`sizes
      ensures Valid()
      ensures r.Success? <==> p != [] && IsDir(old(nodes), Parent(p)) && (p in old(nodes) ==> old(nodes)[p].File?) && !locked(p)
      ensures r.Failure? ==> nodes == old(nodes) && sizes == old(sizes)
      ensures r.Success? ==>
                && Opens(old(View()), p, r.value) && IsDir(old(nodes), Parent(p))
                && nodes == old(nodes)[p := File(r.value)]
                && sizes == old(sizes)[r.value := if trunc then 0 else OldSize(old(View()), p)]
    {
      ResolveMeaning(nodes, p);
      if p == [] {
        return Failure(EISDIR);
      }
      ResolveMeaning(nodes, Parent(p));
      ParentThroughLeaf(nodes, p);
      var d := Lstat(Parent(p));
      if d.Failure? {
        return Failure(d.error);
      }
      if !d.value.Dir? {
        return Failure(ENOTDIR);
      }
      if locked(p) {
        return Failure(EACCES);
      }
      // The kernel picks the inode of a new file: any that is not in use.
      ghost var unused := FreshInode(sizes.Keys);
      var ino: nat :| ino !in sizes;
      var size := 0;
      if p in nodes {
        match nodes[p] {
          case Dir => return Failure(EISDIR);
          case Link => return Failure(ELOOP);
          case File(i) =>
            ino := i;
            size := if trunc then 0 else sizes[i];
        }
      }
      OpenedFile(View(), p, ino, size);
      nodes := nodes[p := File(ino)];
      sizes := sizes[ino := size];
      return Success(ino);
    }

    /** `Touch`: like `OpenFile`, after the missing parent directories were created. */
    method Touch(p: Path, trunc: bool) returns (r: Result<nat, Errno>)
      requires Valid() && CleanPath(p) && p != []
      modifies this`nodes, this`sizes
      ensures Valid()
      ensures r.Success? <==>
                && !ThroughLeaf(old(nodes), p) && (p in old(nodes) ==> old(nodes)[p].File?) && !locked(p)
                && forall k :: 0 <= k < |p| && p[..k] !in old(nodes) ==> !locked(p[..k])
      ensures r.Failure? ==> OnlyDirsAdded(old(nodes), nodes) && sizes == old(sizes)
      ensures r.Success? ==>
                && Opens(old(View()), p, r.value)
                && nodes == WithDirs(old(nodes), Parent(p))[p := File(r.value)]
                && sizes == old(sizes)[r.value := if trunc then 0 else OldSize(old(View()), p)]
    {
      ParentThroughLeaf(nodes, p);
      var err := TouchPath(p);
      if err != None {
        return Failure(err.value);
      }
      r := OpenFile(p, trunc);
    }

    /** `TouchPath`: the missing parent directories are created. */
    method TouchPath(p: Path) returns (err: Option<Errno>)
      requires Valid() && p != [] && CleanPath(p)
      modifies this`nodes
      ensures Valid() && OnlyDirsAdded(old(nodes), nodes)
      ensures err == None <==>
                !ThroughLeaf(old(nodes), p) && forall k :: 0 <= k < |p| && p[..k] !in old(nodes) ==> !locked(p[..k])
      ensures err == None ==>
                && nodes == WithDirs(old(nodes), Parent(p))
                && (p in nodes <==> p in old(nodes)) && (ThroughLeaf(nodes, p) <==> ThroughLeaf(old(nodes), p))
                && (forall i :: Opens(View(), p, i) <==> Opens(old(View()), p, i))
                && OldSize(View(), p) == OldSize(old(View()), p)
    {
      ghost var s := View();
      var parent := Parent(p);
      ResolveMeaning(nodes, parent);
      AllThere(nodes, parent, locked);
      UnlockedAbove(nodes, p, locked);
      ParentThroughLeaf(nodes, p);
      var d := Lstat(parent);
      if d.Success? && !d.value.Dir? {
        return Some(ENOTDIR);
      }
      if d.Failure? {
        if d.error != ENOENT {
          return Some(d.error);
        }
        err := MkdirAll(parent);
        if err != None {
          return;
        }
      }
      TouchedDirs(s, nodes, p);
      return None;
    }

    /**
     `Rename`: never onto an existing entry; missing parents of the new path are created.  `same` says that
     both paths were spelled alike; a second spelling of the old path already exists.
     */
    method Rename(from: Path, to: Path, same: bool) returns (err: Option<Errno>, ghost op: Op)
      requires Valid() && CleanPath(from) && CleanPath(to) && (same ==> from == to)
      modifies this`nodes
      ensures Valid() && Step(old(View()), op, View())
      ensures op == if err == None && !same then Op.Rename(from, to) else Dirs
      ensures same ==> nodes == old(nodes)
      ensures err == None <==>
                same || (from != [] && to != [] && from in old(nodes) && to !in old(nodes) && !(from <= to)
                         && !ThroughLeaf(old(nodes), to) && !locked(from) && !locked(to)
                         && forall k :: 0 <= k < |to| && to[..k] !in old(nodes) ==> !locked(to[..k]))
    {
      op := Dirs;
      if same {
        return None, op;
      }
      ghost var s := View();
      ResolveMeaning(nodes, from);
      ResolveMeaning(nodes, to);
      if from == [] {
        return Some(EBADPATH), op;
      }
      var src := Lstat(from);
      if src.Failure? {
        return Some(src.error), op;
      }
      if to == [] {
        return Some(EBADPATH), op;
      }
      ParentThroughLeaf(nodes, to);
      err := TouchPath(to);
      if err != None {
        return err, op;
      }
      err := RenameInto(from, to, s);
      if err == None {
        op := Op.Rename(from, to);
      }
    }

    /** The end of `Rename`, once the parent of the new path is there; `s` is the state before that. */
    method RenameInto(from: Path, to: Path, ghost s: Disk) returns (err: Option<Errno>)
      requires from != [] && to != [] && CleanPath(to) && from in s.nodes
      requires Valid() && ValidDisk(s) && View() == s.(nodes := WithDirs(s.nodes, Parent(to)))
      requires (to in nodes <==> to in s.nodes) && (ThroughLeaf(nodes, to) <==> ThroughLeaf(s.nodes, to))
      modifies this`nodes
      ensures Valid()
      ensures err == None <==> to !in s.nodes && !ThroughLeaf(s.nodes, to) && !(from <= to) && !locked(from) && !locked(to)
      ensures if err == None then Step(s, Op.Rename(from, to), View()) else nodes == old(nodes)
    {
      ResolveMeaning(nodes, to);
      var dst := Lstat(to);
      if dst.Success? {
        return Some(EEXIST);
      }
      if dst.error != ENOENT {
        return Some(dst.error);
      }
      // The kernel refuses to move a directory into itself.
      if from <= to {
        return Some(EINVAL);
      }
      if locked(from) || locked(to) {
        return Some(EACCES);
      }
      RenameStep(s, from, to);
      nodes := Move(nodes, from, to);
      err := None;
    }
  }

  lemma AllThere(t: Nodes, d: Path, locked: Path -> bool)
    requires WellFormed(t)
    ensures d in t ==> Unlocked(t, d, locked) && !ThroughLeaf(t, d)
  {
    ResolveMeaning(t, d);
    if d in t {
      forall k | 0 <= k <= |d| ensures d[..k] in t {
        if k < |d| {
          AncestorIsDir(t, d[..k], d);
        } else {
          assert d[..k] == d;
        }
      }
    }
  }

  /** Once the parent directory is there, opening `p` has the same outcome as before it was made. */
  lemma TouchedDirs(s: Disk, t: Nodes, p: Path)
    requires ValidDisk(s) && p != [] && CleanPath(p) && WellFormed(t)
    requires if Parent(p) in s.nodes then t == s.nodes else t == WithDirs(s.nodes, Parent(p)) && !ThroughLeaf(s.nodes, Parent(p))
    ensures OnlyDirsAdded(s.nodes, t) && t == WithDirs(s.nodes, Parent(p))
    ensures p in t <==> p in s.nodes
    ensures ThroughLeaf(t, p) <==> ThroughLeaf(s.nodes, p)
    ensures forall i :: Opens(s.(nodes := t), p, i) <==> Opens(s, p, i)
    ensures OldSize(s.(nodes := t), p) == OldSize(s, p)
  {
    var d := Parent(p);
    ResolveMeaning(s.nodes, d);
    WithDirsMeaning(s.nodes, d);
    assert d <= d && !(p <= d);
    BytesOfDirs(s.nodes, t, s.sizes);
    ResolveMeaning(t, d);
    ParentThroughLeaf(s.nodes, p);
    ParentThroughLeaf(t, p);
  }
}
