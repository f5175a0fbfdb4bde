/**
 The operations of a server's filesystem (server/filesystem/filesystem.go, compress.go, disk_space.go)
 on top of the quota-tracked sandbox.
 */
module FilesystemOps {
  import opened Prelude
  import opened Paths
  import opened Tree
  import opened Removal
  import opened Pruning
  import opened QuotaFS
  import opened Accounting
  import opened CopyNames
  import opened Walk
  import opened DiskSpace

  const BATCH: nat := 1024

  class Filesystem {
    const quota: Quota
    const denylist: Path -> bool

    constructor (quota: Quota, denylist: Path -> bool)
      ensures this.quota == quota && this.denylist == denylist
    {
      this.quota := quota;
      this.denylist := denylist;
    }

    // ---- Counting ----

    /** `updateCachedDiskUsage`: walks the whole sandbox and stores the sum as the usage. */
    method UpdateCachedDiskUsage(nlink: nat -> nat, listing: Listing) returns (size: int, err: Option<Errno>)
      requires quota.Valid() && Listed(quota.nodes, listing) && CountsLinks(quota.nodes, nlink)
      modifies quota`usage
      ensures err == None && size == quota.usage
      ensures Bytes(quota.nodes, quota.sizes) <= MAX_INT64 ==>
                quota.Valid() && Step(old(quota.View()), Refresh, quota.View()) && Agrees(quota.View())
    {
      ghost var s := quota.View();
      size, err := DirectorySize(quota.nodes, quota.sizes, nlink, listing, []);
      assert Under(quota.nodes, []) == quota.nodes;
      quota.usage := size;
    }

    // ---- Writing ----

    predicate HasSpaceFor(size: int)
      requires IsInt64(size) && IsInt64(quota.usage)
      reads quota`limit, quota`usage
    {
      quota.CanFit(size)
    }

    /**
     `Write`.  `got` is how many bytes the reader and the disk let through, `copied` whether the copy ended
     without an error, `owned` whether the owner can be set.  It is one step of the accounting, whichever
     call fails.
     */
    method Write(p: Path, newSize: int, got: nat, copied: bool, owned: bool) returns (err: Option<Errno>, ghost op: Op)
      requires quota.Valid() && CleanPath(p) && IsInt64(newSize)
      modifies quota`nodes, quota`sizes, quota`usage
      ensures quota.Valid() && Step(old(quota.View()), op, quota.View())
      ensures op.Dirs? || (op.Write? && op.p == p && op.newSize == newSize && op.n == Min(got, Max(newSize, 0)))
      ensures op.Write? <==>
                && p != [] && !ThroughLeaf(old(quota.nodes), p) && (p in old(quota.nodes) ==> old(quota.nodes)[p].File?)
                && !quota.locked(p) && (forall k :: 0 <= k < |p| && p[..k] !in old(quota.nodes) ==> !quota.locked(p[..k]))
                && CanFit(old(quota.limit), old(quota.usage), Wrap64(newSize - OldSize(old(quota.View()), p)))
      ensures err == None <==> op.Write? && owned && (newSize == 0 || copied)
    {
      op := Dirs;
      var stat := CurrentSize(p);
      if stat.Failure? {
        return Some(stat.error), op;
      }
      var currentSize := stat.value;
      if !HasSpaceFor(Wrap64(newSize - currentSize)) {
        return Some(EQUOTA), op;
      }
      err, op := WriteInto(p, newSize, currentSize, got);
      if err != None {
        return;
      }
      if !owned {
        return Some(EACCES), op;
      }
      err := if newSize == 0 || copied then None else Some(EIO);
    }

    /** The part of `Write` after the guard: open the file, copy, account. */
    method WriteInto(p: Path, newSize: int, currentSize: int, got: nat) returns (err: Option<Errno>, ghost op: Op)
      requires quota.Valid() && CleanPath(p) && p != [] && IsInt64(newSize)
      requires currentSize == OldSize(quota.View(), p) && CanFit(quota.limit, quota.usage, Wrap64(newSize - currentSize))
      modifies quota`nodes, quota`sizes, quota`usage
      ensures quota.Valid() && Step(old(quota.View()), op, quota.View())
      ensures if err == None then op.Write? && op.p == p && op.newSize == newSize && op.n == Min(got, Max(newSize, 0)) else op.Dirs?
      ensures err == None <==>
                && !ThroughLeaf(old(quota.nodes), p) && (p in old(quota.nodes) ==> old(quota.nodes)[p].File?)
                && !quota.locked(p) && (forall k :: 0 <= k < |p| && p[..k] !in old(quota.nodes) ==> !quota.locked(p[..k]))
    {
      ghost var s := quota.View();
      var file := quota.Touch(p, true);
      if file.Failure? {
        return Some(file.error), Dirs;
      }
      var n := FillFile(file.value, newSize, currentSize, got);
      WriteIsStep(s, p, newSize, n, file.value, quota.View());
      return None, Op.Write(p, newSize, n, file.value);
    }

    /** The stat at the start of `Write`: the size of an earlier file, zero if there is none. */
    method CurrentSize(p: Path) returns (r: Result<int, Errno>)
      requires quota.Valid()
      ensures r.Success? ==>
                && (p in quota.nodes ==> quota.nodes[p].File?)
                && r.value == OldSize(quota.View(), p) && 0 <= r.value <= MAX_INT64
      ensures p in quota.nodes && !quota.nodes[p].File? ==> r.Failure?
      ensures r.Failure? ==> ThroughLeaf(quota.nodes, p) || (p in quota.nodes && !quota.nodes[p].File?)
    {
      ResolveMeaning(quota.nodes, p);
      match quota.Lstat(p) {
        case Success(Dir) => return Failure(EISDIR);
        // What a symbolic link leads to is not part of the model; opening one is refused later on.
        case Success(Link) => return Failure(ELOOP);
        case Success(File(i)) => return Success(quota.sizes[i]);
        case Failure(e) => return if e == ENOENT then Success(0) else Failure(e);
      }
    }

    /** The part of `Write` after the file was truncated: copy, then account for old and new size. */
    method FillFile(ino: nat, newSize: int, currentSize: int, got: nat) returns (n: nat)
      requires IsInt64(newSize) && 0 <= currentSize <= MAX_INT64 && IsInt64(quota.usage)
      requires ino in quota.sizes && quota.sizes[ino] == 0
      modifies quota`sizes, quota`usage
      ensures n == Min(got, Max(newSize, 0)) && quota.sizes == old(quota.sizes)[ino := n]
      ensures quota.usage == AddUsage(old(quota.usage), n - currentSize)
    {
      n := 0;
      if newSize == 0 {
        var _ := quota.Add(-currentSize);
      } else {
        n := Min(got, Max(newSize, 0));
        quota.sizes := quota.sizes[ino := n];
        var _ := quota.Add(n - currentSize);
      }
    }

    /** `CreateDirectory`: the directory with whatever is missing on the way to it. */
    method CreateDirectory(p: Path) returns (err: Option<Errno>)
      requires quota.Valid() && CleanPath(p)
      modifies quota`nodes
      ensures quota.Valid() && Step(old(quota.View()), Dirs, quota.View())
      ensures err == None <==>
                if p in old(quota.nodes) then
                  old(quota.nodes)[p].Dir? || (old(quota.nodes)[p].Link? && quota.linked(p))
                else
                  && !ThroughLeaf(old(quota.nodes), p)
                  && forall k :: 0 <= k <= |p| && p[..k] !in old(quota.nodes) ==> !quota.locked(p[..k])
      ensures err == None ==> quota.nodes == WithDirs(old(quota.nodes), p) && !ThroughLeaf(old(quota.nodes), p)
    {
      err := quota.MkdirAll(p);
    }

    /**
     `Copy`: the duplicate goes to the first free candidate name.  `stamp` is the time in the last
     candidate, `got` how many bytes were copied; `copied` and `owned` as in `Write`.
     */
    method Copy(p: Path, stamp: string, got: nat, copied: bool, owned: bool) returns (err: Option<Errno>, ghost op: Op)
      requires quota.Valid() && CleanPath(p) && '/' !in stamp
      modifies quota`nodes, quota`sizes, quota`usage
      ensures quota.Valid() && Step(old(quota.View()), op, quota.View())
      ensures op == Dirs ==> quota.View() == old(quota.View())
      ensures op != Dirs <==>
                var dst := CopyTarget(old(quota.nodes), p, stamp);
                && p in old(quota.nodes) && old(quota.nodes)[p].File?
                && CanFit(old(quota.limit), old(quota.usage), OldSize(old(quota.View()), p))
                && (dst in old(quota.nodes) ==> old(quota.nodes)[dst].File?) && !quota.locked(dst)
      ensures op != Dirs ==>
                && op.Copy? && op.size == OldSize(old(quota.View()), p) && op.n == Min(got, op.size)
                && op.dst == CopyTarget(old(quota.nodes), p, stamp)
      ensures err == None <==> op != Dirs && owned && copied
    {
      op := Dirs;
      ResolveMeaning(quota.nodes, p);
      var source := quota.Lstat(p);
      if source.Failure? {
        return Some(source.error), op;
      }
      if !source.value.File? {
        return Some(ENOENT), op;
      }
      var currentSize := quota.sizes[source.value.ino];
      if !HasSpaceFor(currentSize) {
        return Some(EQUOTA), op;
      }
      var dst := CopyDestination(p, stamp);
      err, op := CopyInto(dst, currentSize, got, copied, owned);
    }

    /** The part of `Copy` after the guard: open the duplicate, copy, add what was copied. */
    method CopyInto(dst: Path, size: nat, got: nat, copied: bool, owned: bool) returns (err: Option<Errno>, ghost op: Op)
      requires quota.Valid() && dst != [] && CleanPath(dst) && IsDir(quota.nodes, Parent(dst))
      requires size <= MAX_INT64 && CanFit(quota.limit, quota.usage, size)
      modifies quota`nodes, quota`sizes, quota`usage
      ensures quota.Valid() && Step(old(quota.View()), op, quota.View())
      ensures op == Dirs ==> quota.View() == old(quota.View())
      ensures op != Dirs <==> (dst in old(quota.nodes) ==> old(quota.nodes)[dst].File?) && !quota.locked(dst)
      ensures op != Dirs ==> op.Copy? && op.dst == dst && op.size == size && op.n == Min(got, size)
      ensures err == None <==> op != Dirs && owned && copied
    {
      ghost var s := quota.View();
      var file := quota.OpenFile(dst, false);
      if file.Failure? {
        return Some(file.error), Dirs;
      }
      var n := Min(got, size);
      quota.sizes := quota.sizes[file.value := Max(quota.sizes[file.value], n)];
      var _ := quota.Add(n);
      CopyIsStep(s, dst, size, n, file.value, quota.View());
      err := if !owned then Some(EACCES) else if copied then None else Some(EIO);
      return err, Op.Copy(dst, size, n, file.value);
    }

    method CopyDestination(p: Path, stamp: string) returns (dst: Path)
      requires quota.Valid() && p in quota.nodes && p != [] && '/' !in stamp
      ensures dst == CopyTarget(quota.nodes, p, stamp) && dst != [] && CleanPath(dst) && IsDir(quota.nodes, Parent(dst))
    {
      var base := Last(p);
      var extension := Ext(base);
      var newName := FindCopySuffix(quota.nodes, Parent(p), TrimSuffix(base, extension), extension, stamp);
      dst := Parent(p) + [newName];
      CopyTargetIsClean(quota.nodes, p, stamp);
    }

    /**
     The single-file case of `extractStream`: `chunks` are the chunk sizes the decompressor yields, `last`
     how it ends, `full` the chunks whose write fails.  Every chunk is checked, written and added before the
     next one is read, so the extraction is a run of steps; on a new file each of them keeps the count.  It
     ends early, after `done` chunks, exactly when the next one does not fit or cannot be written.
     */
    method ExtractFile(p: Path, chunks: seq<nat>, last: Option<Errno>, full: nat -> bool)
      returns (err: Option<Errno>, ghost states: seq<Disk>, ghost ops: seq<Op>, ghost done: nat)
      requires quota.Valid() && CleanPath(p)
      requires forall i :: 0 <= i < |chunks| ==> chunks[i] <= 4096
      modifies quota`nodes, quota`sizes, quota`usage
      ensures quota.Valid() && Steps(states, ops) && states[0] == old(quota.View()) && states[|ops|] == quota.View()
      ensures p !in old(quota.nodes) ==> AllKeepCount(states, ops)
      ensures denylist(p) ==> err == None
      ensures ops != [] <==>
                && !denylist(p) && p != [] && IsDir(old(quota.nodes), Parent(p)) && !quota.locked(p)
                && (p in old(quota.nodes) ==> old(quota.nodes)[p].File?)
      ensures ops == [] ==> quota.View() == old(quota.View()) && (err == None ==> denylist(p))
      ensures done <= |chunks| && (ops != [] && done == |chunks| ==> err == last)
      ensures ops != [] && done < |chunks| ==> err != None && Stops(quota.View(), Total(chunks[..done]), chunks[done], full(done))
      ensures ops != [] ==> OldSize(quota.View(), p) == Max(OldSize(old(quota.View()), p), Total(chunks[..done]))
    {
      ghost var s := quota.View();
      states, ops, done := [s], [], 0;
      if denylist(p) {
        return None, states, ops, done;
      }
      var f := quota.OpenFile(p, false);
      if f.Failure? {
        return Some(f.error), states, ops, done;
      }
      var ino := f.value;
      OpenIsStep(s, p, ino, quota.View());
      StepsGrow(states, ops, Create(p, ino), quota.View());
      states, ops := states + [quota.View()], ops + [Create(p, ino)];
      err, states, ops, done := WriteChunks(p, ino, chunks, full, s, states, ops);
      if err == None {
        err := last;
      }
    }

    /** The loop over the chunks; `first` is the state before the extraction. */
    method WriteChunks(p: Path, ino: nat, chunks: seq<nat>, full: nat -> bool, ghost first: Disk, ghost before: seq<Disk>, ghost made: seq<Op>)
      returns (err: Option<Errno>, ghost states: seq<Disk>, ghost ops: seq<Op>, ghost done: nat)
      requires quota.Valid() && quota.IsFile(p, ino) && forall i :: 0 <= i < |chunks| ==> chunks[i] <= 4096
      requires Extracted(before, made, first, quota.View(), p) && (p !in first.nodes ==> quota.sizes[ino] == 0)
      modifies quota`sizes, quota`usage
      ensures quota.Valid() && quota.IsFile(p, ino)
      ensures Extracted(states, ops, first, quota.View(), p)
      ensures done <= |chunks| && (err == None <==> done == |chunks|)
      ensures done < |chunks| ==> Stops(quota.View(), Total(chunks[..done]), chunks[done], full(done))
      ensures quota.sizes[ino] == Max(old(quota.sizes[ino]), Total(chunks[..done]))
    {
      states, ops, done := before, made, 0;
      var pos: nat := 0;
      for i := 0 to |chunks|
        invariant quota.Valid() && quota.IsFile(p, ino) && done == i && pos == Total(chunks[..i])
        invariant quota.sizes[ino] == Max(old(quota.sizes[ino]), pos)
        invariant Extracted(states, ops, first, quota.View(), p)
      {
        assert chunks[..i + 1][..i] == chunks[..i];
        err, states, ops := NextChunk(p, ino, pos, chunks[i], full(i), first, states, ops);
        if err != None {
          return;
        }
        pos := pos + chunks[i];
        done := i + 1;
      }
      assert chunks[..|chunks|] == chunks;
      err := None;
    }

    /** One round of that loop; an empty chunk is nothing to write. */
    method NextChunk(p: Path, ino: nat, pos: nat, n: nat, fails: bool, ghost first: Disk, ghost before: seq<Disk>, ghost made: seq<Op>)
      returns (err: Option<Errno>, ghost states: seq<Disk>, ghost ops: seq<Op>)
      requires quota.Valid() && quota.IsFile(p, ino) && pos <= quota.sizes[ino] && n <= 4096
      requires Extracted(before, made, first, quota.View(), p) && (p !in first.nodes ==> pos == quota.sizes[ino])
      modifies quota`sizes, quota`usage
      ensures quota.Valid() && quota.IsFile(p, ino) && Extracted(states, ops, first, quota.View(), p)
      ensures err != None ==> quota.View() == old(quota.View()) && Stops(quota.View(), pos, n, fails)
      ensures err == None ==> quota.sizes[ino] == Max(old(quota.sizes[ino]), pos + n)
    {
      if n == 0 {
        return None, before, made;
      }
      err := WriteChunk(p, ino, pos, n, fails);
      if err != None {
        return err, before, made;
      }
      StepsGrow(before, made, Chunk(p, pos, n), quota.View());
      states, ops := before + [quota.View()], made + [Chunk(p, pos, n)];
    }

    /** One chunk: check the quota, write at the offset, add to the quota. */
    method WriteChunk(p: Path, ino: nat, pos: nat, n: nat, fails: bool) returns (err: Option<Errno>)
      requires quota.Valid() && quota.IsFile(p, ino) && pos <= quota.sizes[ino] && n <= 4096
      modifies quota`sizes, quota`usage
      ensures quota.Valid() && quota.IsFile(p, ino)
      ensures err == None <==> CanFit(old(quota.limit), old(quota.usage), n) && !fails && pos + n <= MAX_INT64
      ensures err != None ==> quota.View() == old(quota.View())
      ensures err == None ==>
                && Step(old(quota.View()), Chunk(p, pos, n), quota.View())
                && quota.sizes[ino] == Max(old(quota.sizes[ino]), pos + n)
                && (pos == old(quota.sizes[ino]) ==> KeepsCount(old(quota.View()), Chunk(p, pos, n), quota.View()))
    {
      if !HasSpaceFor(n) {
        return Some(EQUOTA);
      }
      // No file grows beyond what an int64 can say.
      if fails || pos + n > MAX_INT64 {
        return Some(ENOSPC);
      }
      ghost var before := quota.View();
      quota.sizes := quota.sizes[ino := Max(quota.sizes[ino], pos + n)];
      var _ := quota.Add(n);
      ChunkIsStep(before, p, pos, n, quota.View());
      err := None;
    }

    method ReadDir(p: Path) returns (r: Result<seq<DirEntry>, Errno>)
      requires quota.Valid()
      ensures IsDir(quota.nodes, p) ==> r.Success?
      ensures r.Success? ==> Lists(quota.nodes, p, r.value)
    {
      ResolveMeaning(quota.nodes, p);
      var d := quota.Lstat(p);
      if d.Failure? {
        return Failure(d.error);
      }
      if !d.value.Dir? {
        return Failure(ENOTDIR);
      }
      var t := quota.nodes;
      var names := ListNames(t, p);
      var es := seq(|names|, i requires 0 <= i < |names| =>
        DirEntry(names[i], p + [names[i]] in t && t[p + [names[i]]].Dir?));
      ListsNames(t, p, names, es);
      r := Success(es);
    }

    /** `Delete`: every stuck entry from `p` down is refused once, and is all that is charged too much. */
    method Delete(p: Path) returns (err: Option<Errno>)
      requires quota.Valid() && p != [] && CleanPath(p)
      modifies quota`nodes, quota`usage
      ensures quota.Valid()
      ensures quota.nodes == Shed(old(quota.nodes), p, quota.stuck)
      ensures err == None <==> p !in quota.nodes && !ThroughLeaf(old(quota.nodes), p)
      ensures Step(old(quota.View()), Remove(Pinned(old(quota.nodes), quota.stuck, p)), quota.View())
      ensures Trimmed(old(quota.usage), old(quota.nodes), quota.usage, quota.nodes, quota.sizes, p, quota.stuck,
                      Pinned(old(quota.nodes), quota.stuck, p))
    {
      ghost var t := quota.nodes;
      LocateInverts(quota.base, p);
      ShedKeepsPinned(t, p, quota.stuck);
      err := quota.RemoveAll(Relative(p), BATCH);
      LostStays(t, quota.nodes, p, quota.stuck, Pinned(t, quota.stuck, p));
    }

    /**
     Whatever fails, only entries below `p` are removed and nothing denylisted is; `lost` are the stuck
     entries whose removal was tried.  When no removal is refused the result is the pruned tree.
     */
    method SafeDeleteRecursively(p: Path) returns (err: Option<Errno>, ghost lost: set<Path>)
      requires quota.Valid() && CleanPath(p)
      modifies quota`nodes, quota`usage
      ensures quota.Valid()
      ensures Between(Prune(old(quota.nodes), p, denylist), quota.nodes, old(quota.nodes))
      ensures p !in old(quota.nodes) ==> err != None
      ensures p in old(quota.nodes) && Unpinned(old(quota.nodes), quota.stuck, p) ==>
                && quota.nodes == Prune(old(quota.nodes), p, denylist) && lost == {}
                && (err == None <==> p != [] || Holds(old(quota.nodes), Denied(old(quota.nodes), p, denylist), p))
      ensures Step(old(quota.View()), Remove(lost), quota.View())
      ensures Trimmed(old(quota.usage), old(quota.nodes), quota.usage, quota.nodes, quota.sizes, p, quota.stuck, lost)
      decreases Below(quota.nodes, p), 2
    {
      ghost var t := quota.nodes;
      lost := {};
      ResolveMeaning(t, p);
      TrimmedStarts(quota.usage, t, quota.sizes, p, quota.stuck);
      var info := quota.Lstat(p);
      if info.Failure? {
        PruneOfAbsent(t, p, denylist);
        return Some(info.error), {};
      }
      if denylist(p) {
        PruneOfDenied(t, p, denylist);
        return None, {};
      }
      if !info.value.Dir? {
        PruneOfLeaf(t, p, quota.stuck, denylist);
        err := Delete(p);
        lost := Pinned(t, quota.stuck, p);
      } else {
        err, lost := SafeDeleteDirectory(p);
      }
      LostStays(t, quota.nodes, p, quota.stuck, lost);
    }

    /** The directory case: the entries one after the other, then the directory if nothing is left. */
    method SafeDeleteDirectory(p: Path) returns (err: Option<Errno>, ghost lost: set<Path>)
      requires quota.Valid() && IsDir(quota.nodes, p) && !denylist(p)
      modifies quota`nodes, quota`usage
      ensures quota.Valid()
      ensures Between(Prune(old(quota.nodes), p, denylist), quota.nodes, old(quota.nodes))
      ensures Unpinned(old(quota.nodes), quota.stuck, p) ==>
                && quota.nodes == Prune(old(quota.nodes), p, denylist)
                && (err == None <==> p != [] || Holds(old(quota.nodes), Denied(old(quota.nodes), p, denylist), p))
      ensures Trimmed(old(quota.usage), old(quota.nodes), quota.usage, quota.nodes, quota.sizes, p, quota.stuck, lost)
      decreases Below(quota.nodes, p), 1
    {
      ghost var t, u := quota.nodes, quota.usage;
      var entries := ReadDir(p);
      var es := entries.value;
      var hasRemainingFiles := false;
      lost := {};
      ReachedStart(u, t, quota.sizes, p, denylist, quota.stuck, es);
      for i := 0 to |es|
        invariant quota.Valid()
        invariant Reached(u, t, quota.usage, quota.nodes, quota.sizes, p, denylist, quota.stuck, es, i, hasRemainingFiles, lost)
      {
        err, hasRemainingFiles, lost := SafeDeleteNext(p, es, i, hasRemainingFiles, t, u, lost);
        if err != None {
          return;
        }
      }
      EntriesAreAll(t, quota.nodes, p, es);
      err := FinishDirectory(p, hasRemainingFiles, t, u, Tried(es, |es|, Unpinned(t, quota.stuck, p)), lost);
    }

    /** One round of that loop. */
    method SafeDeleteNext(p: Path, es: seq<DirEntry>, i: nat, hasRemainingFiles: bool, ghost t: Nodes, ghost u: int, ghost was: set<Path>)
      returns (err: Option<Errno>, remaining: bool, ghost lost: set<Path>)
      requires quota.Valid() && IsDir(t, p) && !denylist(p) && Lists(t, p, es) && i < |es|
      requires Reached(u, t, quota.usage, quota.nodes, quota.sizes, p, denylist, quota.stuck, es, i, hasRemainingFiles, was)
      modifies quota`nodes, quota`usage
      ensures quota.Valid()
      ensures err == None ==>
                Reached(u, t, quota.usage, quota.nodes, quota.sizes, p, denylist, quota.stuck, es, i + 1, remaining, lost)
      ensures Between(Prune(t, p, denylist), quota.nodes, t)
      ensures Trimmed(u, t, quota.usage, quota.nodes, quota.sizes, p, quota.stuck, lost)
      ensures Unpinned(t, quota.stuck, p) ==> err == None
      decreases Below(t, p), 0
    {
      ghost var before, cost := quota.nodes, quota.usage;
      ReachedChild(u, t, cost, before, quota.sizes, p, denylist, quota.stuck, es, i, hasRemainingFiles, was);
      var remains;
      ghost var more;
      err, remains, more := SafeDeleteEntry(p, es[i]);
      lost := was + more;
      ReachedNext(u, t, cost, before, quota.usage, quota.nodes, quota.sizes, p, denylist, quota.stuck, es, i, hasRemainingFiles, was, more);
      remaining := hasRemainingFiles || remains;
    }

    /** The end of the directory case: the directory itself goes when nothing is left in it. */
    method FinishDirectory(p: Path, hasRemainingFiles: bool, ghost t: Nodes, ghost u: int, ghost tried: seq<Name>, ghost lost: set<Path>)
      returns (err: Option<Errno>)
      requires quota.Valid() && IsDir(t, p) && !denylist(p) && CleanPath(p)
      requires Clearing(t, quota.nodes, p, Denied(t, p, denylist), tried)
      requires Trimmed(u, t, quota.usage, quota.nodes, quota.sizes, p, quota.stuck, lost)
      requires hasRemainingFiles <==> Kids(quota.nodes, p) != {}
      requires Unpinned(t, quota.stuck, p) ==> AllIn(Kids(quota.nodes, p), tried)
      modifies quota`nodes, quota`usage
      ensures quota.Valid()
      ensures Between(Prune(t, p, denylist), quota.nodes, t)
      ensures Unpinned(t, quota.stuck, p) ==>
                && quota.nodes == Prune(t, p, denylist)
                && (err == None <==> p != [] || Holds(t, Denied(t, p, denylist), p))
      ensures Trimmed(u, t, quota.usage, quota.nodes, quota.sizes, p, quota.stuck, lost)
    {
      ghost var before, cost := quota.nodes, quota.usage;
      PruneKept(t, before, p, tried, denylist);
      if Unpinned(t, quota.stuck, p) {
        PruneReached(t, before, p, tried, denylist);
      }
      if hasRemainingFiles {
        return None;
      }
      if p != [] {
        NothingHeld(t, before, p, tried, denylist);
      }
      err := quota.Remove(p);
      StuckHere(t, before, p, quota.stuck);
      TrimmedLast(u, t, cost, before, quota.usage, quota.nodes, quota.sizes, p, quota.stuck, lost);
    }

    /** One entry of the directory `p`; `remains` says whether it is still there afterwards. */
    method SafeDeleteEntry(p: Path, e: DirEntry) returns (err: Option<Errno>, remains: bool, ghost lost: set<Path>)
      requires quota.Valid() && IsDir(quota.nodes, p) && !denylist(p)
      requires p + [e.name] in quota.nodes && e.isDir == quota.nodes[p + [e.name]].Dir?
      modifies quota`nodes, quota`usage
      ensures quota.Valid()
      ensures Between(Shed(old(quota.nodes), p + [e.name], Denied(old(quota.nodes), p, denylist)),
                      quota.nodes, old(quota.nodes))
      ensures err == None ==> (remains <==> p + [e.name] in quota.nodes)
      ensures Unpinned(old(quota.nodes), quota.stuck, p + [e.name]) ==>
                && err == None
                && quota.nodes == Shed(old(quota.nodes), p + [e.name], Denied(old(quota.nodes), p, denylist))
      ensures Trimmed(old(quota.usage), old(quota.nodes), quota.usage, quota.nodes, quota.sizes, p + [e.name], quota.stuck, lost)
      decreases Below(quota.nodes, p + [e.name]), 3
    {
      var child := p + [e.name];
      ghost var t := quota.nodes;
      PruneOfChild(t, p, e.name, denylist);
      TrimmedStarts(quota.usage, t, quota.sizes, child, quota.stuck);
      if e.isDir {
        err, lost := SafeDeleteRecursively(child);
        if err != None {
          return err, false, lost;
        }
        ResolveMeaning(quota.nodes, child);
        return None, quota.Lstat(child).Success?, lost;
      }
      if denylist(child) {
        PruneOfDenied(t, child, denylist);
        return None, true, {};
      }
      PruneOfLeaf(t, child, quota.stuck, denylist);
      ResolveMeaning(t, child);
      err := Delete(child);
      return err, false, Pinned(t, quota.stuck, child);
    }
  }

  /** Where the duplicate of `p` goes. */
  function CopyTarget(t: Nodes, p: Path, stamp: string): Path {
    if p == [] then []
    else
      var base := Last(p);
      Parent(p) + [CopyName(base, FreeIndex(t, Parent(p), TrimSuffix(base, Ext(base)), Ext(base), stamp, 0), stamp)]
  }

  lemma CopyTargetIsClean(t: Nodes, p: Path, stamp: string)
    requires WellFormed(t) && p in t && p != [] && '/' !in stamp
    ensures var dst := CopyTarget(t, p, stamp); dst != [] && CleanPath(dst) && IsDir(t, Parent(dst))
  {
    var base := Last(p);
    var dst := CopyTarget(t, p, stamp);
    assert Proper(base);
    CopyNameIsProper(base, FreeIndex(t, Parent(p), TrimSuffix(base, Ext(base)), Ext(base), stamp, 0), stamp);
    assert Parent(dst) == Parent(p);
  }

  /**
   The duplicate gets the first free one of the candidates 1 to 50, which is never the source; onto another
   entry it goes only when all 51 names are taken.
   */
  lemma CopyTargetMeaning(t: Nodes, p: Path, stamp: string) returns (i: nat)
    requires p in t && p != []
    ensures 1 <= i <= 50 && CopyTarget(t, p, stamp) == Parent(p) + [CopyName(Last(p), i, stamp)]
    ensures forall j :: 0 <= j < i ==> Parent(p) + [CopyName(Last(p), j, stamp)] in t
    ensures CopyTarget(t, p, stamp) in t ==> i == 50
    ensures CopyTarget(t, p, stamp) != p
  {
    i := CopyIndex(t, p, stamp);
    NotTheSource(t, p, stamp, i);
  }

  /** The candidate that is chosen. */
  lemma CopyIndex(t: Nodes, p: Path, stamp: string) returns (i: nat)
    requires p in t && p != []
    ensures i <= 50 && CopyTarget(t, p, stamp) == Parent(p) + [CopyName(Last(p), i, stamp)]
    ensures forall j :: 0 <= j < i ==> Parent(p) + [CopyName(Last(p), j, stamp)] in t
    ensures i < 50 ==> Parent(p) + [CopyName(Last(p), i, stamp)] !in t
  {
    var base := Last(p);
    var b, e := TrimSuffix(base, Ext(base)), Ext(base);
    i := FreeIndex(t, Parent(p), b, e, stamp, 0);
    FreeIndexMeaning(t, Parent(p), b, e, stamp, 0);
    forall j | 0 <= j < i ensures Parent(p) + [CopyName(base, j, stamp)] in t {
      assert Taken(t, Parent(p), b, e, stamp, j);
    }
  }

  lemma NotTheSource(t: Nodes, p: Path, stamp: string, i: nat)
    requires p in t && p != [] && i <= 50
    requires i < 50 ==> Parent(p) + [CopyName(Last(p), i, stamp)] !in t
    ensures i > 0 && Parent(p) + [CopyName(Last(p), i, stamp)] != p
  {
    var n := Last(p);
    ExtMeaning(n, stamp);
    LastOne(p);
    if i > 0 {
      LongerName(n, i, stamp);
      OtherNameIsOther(Parent(p), n, CopyName(n, i, stamp));
    }
  }

  lemma LastOne(p: Path)
    requires p != []
    ensures Parent(p) + [Last(p)] == p
  {
  }

  lemma OtherNameIsOther(d: Path, a: Name, b: Name)
    requires |a| != |b|
    ensures d + [a] != d + [b]
  {
    assert (d + [a])[|d|] != (d + [b])[|d|];
  }

  function Total(chunks: seq<nat>): nat {
    if chunks == [] then 0 else Total(chunks[..|chunks| - 1]) + chunks[|chunks| - 1]
  }

  lemma {:induction false} TotalMeaning(a: seq<nat>, b: seq<nat>, n: nat)
    ensures Total([n]) == n && Total(a + b) == Total(a) + Total(b)
    decreases |b|
  {
    assert [n][..0] == [];
    if b == [] {
      assert a + b == a;
    } else {
      assert (a + b)[..|a + b| - 1] == a + b[..|b| - 1];
      TotalMeaning(a, b[..|b| - 1], n);
    }
  }

  /** A chunk of `n` bytes at offset `pos` is not written: it does not fit, or its write fails. */
  ghost predicate Stops(s: Disk, pos: nat, n: nat, fails: bool)
    requires ValidDisk(s) && n <= 4096
  {
    n > 0 && (!CanFit(s.limit, s.usage, n) || fails || pos + n > MAX_INT64)
  }

  /** Valid states, each a step from the one before. */
  ghost predicate Steps(states: seq<Disk>, ops: seq<Op>) {
    && |states| == |ops| + 1
    && (forall i :: 0 <= i < |states| ==> ValidDisk(states[i]))
    && (forall i :: 0 <= i < |ops| ==> Step(states[i], ops[i], states[i + 1]))
  }

  ghost predicate AllKeepCount(states: seq<Disk>, ops: seq<Op>)
    requires Steps(states, ops)
  {
    forall i :: 0 <= i < |ops| ==> KeepsCount(states[i], ops[i], states[i + 1])
  }

  /** Steps from `first` to `now`; when `p` is a new file each of them keeps the count. */
  ghost predicate Extracted(states: seq<Disk>, ops: seq<Op>, first: Disk, now: Disk, p: Path) {
    && Steps(states, ops) && ops != [] && states[0] == first && states[|ops|] == now
    && (p !in first.nodes ==> AllKeepCount(states, ops))
  }

  lemma StepsGrow(states: seq<Disk>, ops: seq<Op>, op: Op, s': Disk)
    requires Steps(states, ops) && Step(states[|ops|], op, s') && ValidDisk(s')
    ensures Steps(states + [s'], ops + [op])
    ensures AllKeepCount(states, ops) && KeepsCount(states[|ops|], op, s') ==> AllKeepCount(states + [s'], ops + [op])
  {
  }
}
