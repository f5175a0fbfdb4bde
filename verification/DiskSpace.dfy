/**
 Summing up a directory (`DirectorySize`, disk_space.go): every inode counts once, however many names
 it has and in whatever order the walk meets them.
 */
module DiskSpace {
  import opened Prelude
  import opened Paths
  import opened Tree
  import opened Accounting
  import opened Walk

  /** Link counts: an inode with two names in the sandbox has more than one link. */
  ghost predicate CountsLinks(t: Nodes, nlink: nat -> nat) {
    forall p, q :: p in t && q in t && p != q && t[p].File? && t[q].File? && t[p].ino == t[q].ino ==> nlink(t[p].ino) > 1
  }

  /** The entries of `t` that are listed in `order`. */
  function Part(t: Nodes, order: seq<Path>): Nodes {
    map q | q in t && q in order :: t[q]
  }

  /** The subtree at `p`. */
  function Under(t: Nodes, p: Path): (r: Nodes)
    ensures forall q :: q in r <==> q in t && p <= q
  {
    map q | q in t && p <= q :: t[q]
  }

  lemma PartGrows(t: Nodes, sizes: Sizes, nlink: nat -> nat, order: seq<Path>, k: nat, links: seq<nat>)
    requires Sized(t, sizes) && CountsLinks(t, nlink) && k < |order| && order[k] in t && order[k] !in order[..k]
    requires forall i :: i in links <==> i in Inodes(Part(t, order[..k])) && nlink(i) > 1
    ensures !t[order[k]].File? ==>
              && Bytes(Part(t, order[..k + 1]), sizes) == Bytes(Part(t, order[..k]), sizes)
              && Inodes(Part(t, order[..k + 1])) == Inodes(Part(t, order[..k]))
    ensures t[order[k]].File? ==>
              && Inodes(Part(t, order[..k + 1])) == Inodes(Part(t, order[..k])) + {t[order[k]].ino}
              && Bytes(Part(t, order[..k + 1]), sizes) ==
                 Bytes(Part(t, order[..k]), sizes) + if t[order[k]].ino in links then 0 else sizes[t[order[k]].ino]
  {
    var p, a, b := order[k], Part(t, order[..k]), Part(t, order[..k + 1]);
    assert order[..k + 1] == order[..k] + [p];
    assert b == a[p := t[p]];
    assert b - {p} == a;
    if t[p].File? {
      var i := t[p].ino;
      BytesOfUnlink(b, sizes, p);
      if i in Inodes(a) {
        var q :| q in a && a[q].File? && a[q].ino == i;
        assert q in b && q != p && OtherName(b, p);
        assert i in links;
      } else {
        assert !OtherName(b, p);
      }
      InodesOfOneMore(a, b, p);
    } else {
      InodesOfOneMore(a, b, p);
      assert InodeSizes(b, sizes) == InodeSizes(a, sizes);
    }
  }

  lemma InodesOfOneMore(a: Nodes, b: Nodes, p: Path)
    requires p in b && p !in a && a == b - {p}
    ensures Inodes(b) == Inodes(a) + if b[p].File? then {b[p].ino} else {}
  {
    forall i ensures i in Inodes(b) <==> i in Inodes(a) || (b[p].File? && b[p].ino == i) {
      if i in Inodes(b) {
        var q :| q in b && b[q].File? && b[q].ino == i;
        assert q != p ==> q in a && a[q].File?;
      }
      if i in Inodes(a) {
        var q :| q in a && a[q].File? && a[q].ino == i;
        assert q in b && b[q].File?;
      }
    }
  }

  /** The state of the callback after the entries in `part`: `size` wraps around as an int64 does. */
  ghost predicate Counted(part: Nodes, sizes: Sizes, nlink: nat -> nat, size: int, links: seq<nat>)
    requires Sized(part, sizes)
  {
    && (forall i :: i in links <==> i in Inodes(part) && nlink(i) > 1)
    && IsInt64(size)
    && (Bytes(part, sizes) <= MAX_INT64 ==> size == Bytes(part, sizes))
  }

  /**
   `DirectorySize`: the bytes of the distinct inodes at or below `root`, for every order of the listing.
   The callback meets no error on a tree nobody changes, so it answers nil at every entry.
   */
  method DirectorySize(t: Nodes, sizes: Sizes, nlink: nat -> nat, listing: Listing, root: Path)
    returns (size: int, err: Option<Errno>)
    requires WellFormed(t) && Sized(t, sizes) && Listed(t, listing) && CountsLinks(t, nlink)
    requires forall i :: i in sizes ==> sizes[i] <= MAX_INT64
    ensures err == None <==> root in t
    ensures root !in t ==> size == 0
    ensures root in t && Bytes(Under(t, root), sizes) <= MAX_INT64 ==> size == Bytes(Under(t, root), sizes)
    ensures IsInt64(size)
  {
    var visited;
    err, visited := WalkDirat(t, listing, _ => Continue, e => Fail(e), root);
    if root !in t {
      return 0, err;
    }
    WalksAll(t, listing, root);
    size := AddSizes(t, sizes, nlink, visited);
    assert Part(t, visited) == Under(t, root);
  }

  lemma WalksAll(t: Nodes, listing: Listing, p: Path)
    requires WellFormed(t) && Listed(t, listing) && p in t
    ensures var visited := Keep(t, _ => Continue, Preorder(t, listing, p), []);
            AncestorsFirst(visited) && forall q :: q in visited <==> q in t && p <= q
  {
    KeepAll(t, _ => Continue, Preorder(t, listing, p), []);
    PreorderIsBelow(t, listing, p);
  }

  lemma NothingCounted(t: Nodes, sizes: Sizes, nlink: nat -> nat)
    requires Sized(t, sizes)
    ensures Counted(Part(t, []), sizes, nlink, 0, [])
  {
    assert Part(t, []) == map[];
    assert InodeSizes(map[], sizes) == map[];
  }

  lemma MetOnce(order: seq<Path>, k: nat)
    requires AncestorsFirst(order) && k < |order|
    ensures order[k] !in order[..k]
  {
  }

  /** The calls of the callback, in the order of the walk. */
  method AddSizes(t: Nodes, sizes: Sizes, nlink: nat -> nat, visited: seq<Path>) returns (size: int)
    requires Sized(t, sizes) && CountsLinks(t, nlink) && AncestorsFirst(visited)
    requires forall q :: q in visited ==> q in t
    requires forall i :: i in sizes ==> sizes[i] <= MAX_INT64
    ensures IsInt64(size)
    ensures Bytes(Part(t, visited), sizes) <= MAX_INT64 ==> size == Bytes(Part(t, visited), sizes)
  {
    size := 0;
    var hardLinks: seq<nat> := [];
    NothingCounted(t, sizes, nlink);
    assert visited[..0] == [];
    for k := 0 to |visited|
      invariant Counted(Part(t, visited[..k]), sizes, nlink, size, hardLinks)
    {
      MetOnce(visited, k);
      size, hardLinks := AddSize(t, sizes, nlink, visited, k, size, hardLinks);
    }
    assert visited[..|visited|] == visited;
  }

  lemma CountedNext(a: Nodes, b: Nodes, sizes: Sizes, nlink: nat -> nat, was: int, links: seq<nat>, i: nat)
    requires Sized(a, sizes) && Sized(b, sizes) && Counted(a, sizes, nlink, was, links)
    requires i in sizes && sizes[i] <= MAX_INT64 && Inodes(b) == Inodes(a) + {i}
    requires Bytes(b, sizes) == Bytes(a, sizes) + if i in links then 0 else sizes[i]
    ensures Counted(b, sizes, nlink, if i in links then was else Wrap64(was + sizes[i]),
                    if nlink(i) > 1 && i !in links then links + [i] else links)
  {
  }

  /** One call of the callback. */
  method AddSize(t: Nodes, sizes: Sizes, nlink: nat -> nat, visited: seq<Path>, k: nat, was: int, links: seq<nat>)
    returns (size: int, hardLinks: seq<nat>)
    requires Sized(t, sizes) && CountsLinks(t, nlink) && k < |visited| && visited[k] in t && visited[k] !in visited[..k]
    requires forall i :: i in sizes ==> sizes[i] <= MAX_INT64
    requires Counted(Part(t, visited[..k]), sizes, nlink, was, links)
    ensures Counted(Part(t, visited[..k + 1]), sizes, nlink, size, hardLinks)
  {
    size, hardLinks := was, links;
    var p := visited[k];
    PartGrows(t, sizes, nlink, visited, k, links);
    if !t[p].File? {
      return;
    }
    var ino := t[p].ino;
    CountedNext(Part(t, visited[..k]), Part(t, visited[..k + 1]), sizes, nlink, was, links, ino);
    if nlink(ino) > 1 {
      if ino in hardLinks {
        return;
      }
      hardLinks := hardLinks + [ino];
    }
    size := Wrap64(size + sizes[ino]);
  }
}
