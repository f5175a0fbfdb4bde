/**
 What the denylist-respecting delete leaves (`SafeDeleteRecursively`, filesystem.go), and how the loop
 over the entries of a directory gets there.  The denylist is an arbitrary predicate on paths.
 */
module Pruning {
  import opened Paths
  import opened Tree
  import opened Removal

  /** The entries below `p` that are denylisted, or lie below a denylisted entry from `p` down. */
  ghost function Denied(t: Nodes, p: Path, denylist: Path -> bool): set<Path> {
    set u | u in t && p <= u && DeniedFrom(p, u, denylist)
  }

  ghost predicate DeniedFrom(p: Path, u: Path, denylist: Path -> bool) {
    exists k :: |p| <= k <= |u| && denylist(u[..k])
  }

  /** What `SafeDeleteRecursively(p)` leaves: the base directory is never removed. */
  ghost function Prune(t: Nodes, p: Path, denylist: Path -> bool): Nodes {
    Shed(t, p, Denied(t, p, denylist) + if p == [] then {[]} else {})
  }

  datatype DirEntry = DirEntry(name: Name, isDir: bool)

  function Names(es: seq<DirEntry>): (names: seq<Name>)
    ensures |names| == |es| && forall i :: 0 <= i < |es| ==> names[i] == es[i].name
  {
    if es == [] then [] else [es[0].name] + Names(es[1..])
  }

  /** `t'` is `t` with entries taken away, but none of `least`. */
  ghost predicate Between(least: Nodes, t': Nodes, t: Nodes) {
    Within(t', t) && least.Keys <= t'.Keys
  }

  /** `es` names every entry of the directory `p` once, with its kind. */
  ghost predicate Lists(t: Nodes, p: Path, es: seq<DirEntry>) {
    && (forall i :: 0 <= i < |es| ==> p + [es[i].name] in t && es[i].isDir == t[p + [es[i].name]].Dir?)
    && (forall i, j :: 0 <= i < j < |es| ==> es[i].name != es[j].name)
    && (forall n :: n in Kids(t, p) ==> exists i :: 0 <= i < |es| && es[i].name == n)
  }

  lemma ListsNames(t: Nodes, p: Path, names: seq<Name>, es: seq<DirEntry>)
    requires forall n :: n in names <==> n in Kids(t, p)
    requires forall i, j :: 0 <= i < j < |names| ==> names[i] != names[j]
    requires |es| == |names|
    requires forall i :: 0 <= i < |es| ==> es[i].name == names[i] && es[i].isDir == (p + [names[i]] in t && t[p + [names[i]]].Dir?)
    ensures Lists(t, p, es)
  {
    forall i | 0 <= i < |es| ensures p + [es[i].name] in t {
      assert names[i] in names;
      KidsAre(t, p, names[i]);
    }
    forall n | n in Kids(t, p) ensures exists i :: 0 <= i < |es| && es[i].name == n {
      var i :| 0 <= i < |names| && names[i] == n;
      assert es[i].name == n;
    }
  }

  /** The names that are known to be done after `i` entries; without exactness nothing is claimed. */
  function Tried(es: seq<DirEntry>, i: nat, exact: bool): seq<Name>
    requires i <= |es|
  {
    if exact then Names(es)[..i] else []
  }

  ghost predicate Pending(t: Nodes, p: Path, es: seq<DirEntry>, i: nat) {
    forall j :: i <= j < |es| ==> p + [es[j].name] in t
  }

  ghost predicate SomeLeft(t: Nodes, p: Path, es: seq<DirEntry>, i: nat) {
    exists j :: 0 <= j < i && j < |es| && p + [es[j].name] in t
  }

  /** Part of the removal of `p`: nothing stuck is gone, and the charge is for what is gone and for `lost`. */
  ghost predicate Trimmed(u: int, t: Nodes, u': int, t': Nodes, sizes: Sizes, p: Path, stuck: set<Path>, lost: set<Path>) {
    && Within(t', t) && t.Keys * stuck <= t'.Keys
    && lost <= Pinned(t, stuck, p)
    && Sized(t, sizes) && Charged(u, t, u', t', sizes, lost)
  }

  lemma TrimmedStarts(u: int, t: Nodes, sizes: Sizes, p: Path, stuck: set<Path>)
    requires Sized(t, sizes) && u >= -1
    ensures Trimmed(u, t, u, t, sizes, p, stuck, {})
  {
    NoCharge(u, t, sizes, {});
  }

  lemma TrimmedTwice(u: int, t: Nodes, u1: int, t1: Nodes, u2: int, t2: Nodes, sizes: Sizes, p: Path, q: Path, stuck: set<Path>,
                     a: set<Path>, b: set<Path>)
    requires Trimmed(u, t, u1, t1, sizes, p, stuck, a) && Trimmed(u1, t1, u2, t2, sizes, q, stuck, b) && p <= q
    ensures Trimmed(u, t, u2, t2, sizes, p, stuck, a + b)
  {
    StuckTwice(t, t1, t2, p, q, stuck);
    ChargedTwice(u, t, u1, t1, u2, t2, sizes, a, b);
  }

  lemma StuckTwice(t: Nodes, t1: Nodes, t2: Nodes, p: Path, q: Path, stuck: set<Path>)
    requires Within(t1, t) && Within(t2, t1) && p <= q
    requires t.Keys * stuck <= t1.Keys && t1.Keys * stuck <= t2.Keys
    ensures Within(t2, t) && t.Keys * stuck <= t2.Keys
    ensures Pinned(t1, stuck, q) <= Pinned(t, stuck, p) && Pinned(t1, stuck, q) <= t1.Keys
  {
    assert forall x :: x in t.Keys * stuck ==> x in t1.Keys * stuck;
  }

  /** The directory itself is not a regular file, and goes only when it is not stuck. */
  lemma TrimmedLast(u: int, t: Nodes, u1: int, t1: Nodes, u2: int, t2: Nodes, sizes: Sizes, p: Path, stuck: set<Path>, lost: set<Path>)
    requires Trimmed(u, t, u1, t1, sizes, p, stuck, lost)
    requires t2 == t1 || (t2 == t1 - {p} && p !in stuck)
    requires Sized(t1, sizes) && Charged(u1, t1, u2, t2, sizes, {})
    ensures Trimmed(u, t, u2, t2, sizes, p, stuck, lost)
  {
    StuckOne(t1, t2, p, stuck);
    StuckTwice(t, t1, t2, p, p, stuck);
    ChargedMore(u, t, u1, t1, u2, t2, sizes, lost);
  }

  lemma StuckOne(t: Nodes, t': Nodes, p: Path, stuck: set<Path>)
    requires t' == t || (t' == t - {p} && p !in stuck)
    ensures Within(t', t) && t.Keys * stuck <= t'.Keys
  {
  }

  /** Everything stuck from `p` down is refused at most. */
  lemma LostStays(t: Nodes, t': Nodes, p: Path, stuck: set<Path>, lost: set<Path>)
    requires lost <= Pinned(t, stuck, p) && t.Keys * stuck <= t'.Keys
    ensures lost <= t'.Keys
    ensures Unpinned(t, stuck, p) ==> lost == {}
  {
    assert Pinned(t, stuck, p) <= t.Keys * stuck;
  }

  lemma PruneOfAbsent(t: Nodes, p: Path, denylist: Path -> bool)
    requires WellFormed(t) && p !in t
    ensures Prune(t, p, denylist) == t
  {
    forall q | q in t ensures !(p <= q) {
      if p <= q && p != q {
        AncestorIsDir(t, p, q);
      }
    }
  }

  lemma PruneOfDenied(t: Nodes, p: Path, denylist: Path -> bool)
    requires denylist(p)
    ensures Prune(t, p, denylist) == t
    ensures forall q :: q in t && p <= q ==> q in Denied(t, p, denylist)
  {
    forall q | q in t && p <= q ensures q in Denied(t, p, denylist) {
      assert q[..|p|] == p;
      assert q <= q;
    }
  }

  lemma PruneOfLeaf(t: Nodes, p: Path, stuck: set<Path>, denylist: Path -> bool)
    requires WellFormed(t) && p in t && !t[p].Dir? && !denylist(p)
    ensures Prune(t, p, denylist) == t - {p}
    ensures Between(t - {p}, Shed(t, p, stuck), t)
    ensures Unpinned(t, stuck, p) ==> Shed(t, p, stuck) == t - {p}
  {
    forall q | q in t && p <= q ensures q == p {
      if q != p {
        AncestorIsDir(t, p, q);
      }
    }
    assert p[..|p|] == p;
  }

  /** Below a directory that is not denylisted itself, the child's own prune is the same. */
  lemma PruneOfChild(t: Nodes, p: Path, n: Name, denylist: Path -> bool)
    requires !denylist(p)
    ensures Prune(t, p + [n], denylist) == Shed(t, p + [n], Denied(t, p, denylist))
  {
    var c := p + [n];
    forall u | u in t && c <= u ensures u in Denied(t, c, denylist) <==> u in Denied(t, p, denylist) {
      assert u[..|p|] == p;
    }
    forall q | q in t && c <= q
      ensures Holds(t, Denied(t, c, denylist), q) <==> Holds(t, Denied(t, p, denylist), q)
    {
      assert forall u :: q <= u && u in t ==> c <= u;
    }
  }

  // ---- One entry more ----

  lemma EntriesAreThere(t: Nodes, p: Path, es: seq<DirEntry>)
    requires Lists(t, p, es)
    ensures Pending(t, p, es, 0)
  {
  }

  lemma ChildStep(t: Nodes, t1: Nodes, p: Path, es: seq<DirEntry>, i: nat, stuck: set<Path>)
    requires Lists(t, p, es) && Within(t1, t) && Pending(t1, p, es, i) && i < |es| && p in t1
    ensures p + [es[i].name] in t1 && es[i].isDir == t1[p + [es[i].name]].Dir?
    ensures Below(t1, p + [es[i].name]) < Below(t, p)
    ensures Unpinned(t, stuck, p) ==> Unpinned(t1, stuck, p + [es[i].name])
  {
    BelowShrinks(t, t1, p, es[i].name);
  }

  lemma EntryDone(t: Nodes, t1: Nodes, t2: Nodes, p: Path, es: seq<DirEntry>, i: nat, exact: bool, denylist: Path -> bool)
    requires Lists(t, p, es) && i < |es| && Pending(t1, p, es, i)
    requires Clearing(t, t1, p, Denied(t, p, denylist), Tried(es, i, exact))
    requires Between(Shed(t1, p + [es[i].name], Denied(t1, p, denylist)), t2, t1)
    requires exact ==> t2 == Shed(t1, p + [es[i].name], Denied(t1, p, denylist))
    ensures Clearing(t, t2, p, Denied(t, p, denylist), Tried(es, i + 1, exact))
    ensures Within(t2, t1) && Pending(t2, p, es, i + 1)
    ensures SomeLeft(t2, p, es, i + 1) <==> SomeLeft(t1, p, es, i) || p + [es[i].name] in t2
  {
    var pins, child := Denied(t, p, denylist), p + [es[i].name];
    ShedWithin(t, t1, p, es[i].name, denylist);
    if exact {
      ClearingOne(t, t1, t2, p, Names(es), i, pins);
    } else {
      ClearingKeeps(t, t1, t2, p, es[i].name, pins);
    }
    forall j | 0 <= j < |es| && j != i && p + [es[j].name] in t1 ensures p + [es[j].name] in t2 {
      assert es[j].name != es[i].name;
      assert (p + [es[j].name])[|p|] != child[|p|];
      assert p + [es[j].name] in Shed(t1, child, Denied(t1, p, denylist));
    }
  }

  /**
   What the loop over the entries of `p` has reached after `i` of them: nothing denylisted is gone, the
   charge is for what is gone and for `lost`, and `left` says whether an entry remains.
   */
  ghost predicate Reached(u: int, t: Nodes, u': int, t': Nodes, sizes: Sizes, p: Path, denylist: Path -> bool, stuck: set<Path>,
                          es: seq<DirEntry>, i: nat, left: bool, lost: set<Path>)
    requires i <= |es|
  {
    && Clearing(t, t', p, Denied(t, p, denylist), Tried(es, i, Unpinned(t, stuck, p)))
    && Trimmed(u, t, u', t', sizes, p, stuck, lost)
    && Pending(t', p, es, i) && (left <==> SomeLeft(t', p, es, i))
  }

  lemma ReachedStart(u: int, t: Nodes, sizes: Sizes, p: Path, denylist: Path -> bool, stuck: set<Path>, es: seq<DirEntry>)
    requires Sized(t, sizes) && u >= -1 && Lists(t, p, es)
    ensures Reached(u, t, u, t, sizes, p, denylist, stuck, es, 0, false, {})
  {
    ClearingStarts(t, p, Denied(t, p, denylist));
    TrimmedStarts(u, t, sizes, p, stuck);
    EntriesAreThere(t, p, es);
  }

  lemma ReachedChild(u: int, t: Nodes, u': int, t': Nodes, sizes: Sizes, p: Path, denylist: Path -> bool, stuck: set<Path>,
                     es: seq<DirEntry>, i: nat, left: bool, lost: set<Path>)
    requires i < |es| && Lists(t, p, es) && IsDir(t, p)
    requires Reached(u, t, u', t', sizes, p, denylist, stuck, es, i, left, lost)
    ensures IsDir(t', p) && p + [es[i].name] in t' && es[i].isDir == t'[p + [es[i].name]].Dir?
    ensures Below(t', p + [es[i].name]) < Below(t, p)
    ensures Unpinned(t, stuck, p) ==> Unpinned(t', stuck, p + [es[i].name])
  {
    StillThere(t, t', p, Denied(t, p, denylist), Tried(es, i, Unpinned(t, stuck, p)));
    ChildStep(t, t', p, es, i, stuck);
  }

  lemma ReachedNext(u: int, t: Nodes, u1: int, t1: Nodes, u2: int, t2: Nodes, sizes: Sizes, p: Path, denylist: Path -> bool,
                    stuck: set<Path>, es: seq<DirEntry>, i: nat, left: bool, lost: set<Path>, more: set<Path>)
    requires i < |es| && Lists(t, p, es) && IsDir(t, p)
    requires Reached(u, t, u1, t1, sizes, p, denylist, stuck, es, i, left, lost)
    requires Trimmed(u1, t1, u2, t2, sizes, p + [es[i].name], stuck, more)
    requires Between(Shed(t1, p + [es[i].name], Denied(t1, p, denylist)), t2, t1)
    requires Unpinned(t1, stuck, p + [es[i].name]) ==> t2 == Shed(t1, p + [es[i].name], Denied(t1, p, denylist))
    ensures Reached(u, t, u2, t2, sizes, p, denylist, stuck, es, i + 1, left || p + [es[i].name] in t2, lost + more)
    ensures Between(Prune(t, p, denylist), t2, t) && Trimmed(u, t, u2, t2, sizes, p, stuck, lost + more)
  {
    StillThere(t, t1, p, Denied(t, p, denylist), Tried(es, i, Unpinned(t, stuck, p)));
    ChildStep(t, t1, p, es, i, stuck);
    EntryDone(t, t1, t2, p, es, i, Unpinned(t, stuck, p), denylist);
    TrimmedTwice(u, t, u1, t1, u2, t2, sizes, p, p + [es[i].name], stuck, lost, more);
    PruneKept(t, t2, p, Tried(es, i + 1, Unpinned(t, stuck, p)), denylist);
  }

  lemma ShedWithin(t: Nodes, t1: Nodes, p: Path, n: Name, denylist: Path -> bool)
    requires Within(t1, t)
    ensures Shed(t1, p + [n], Denied(t1, p, denylist)) == Shed(t1, p + [n], Denied(t, p, denylist))
  {
    var a, b := Denied(t1, p, denylist), Denied(t, p, denylist);
    assert forall u :: u in t1 ==> (u in a <==> u in b);
    forall q | q in t1 ensures Holds(t1, a, q) <==> Holds(t1, b, q) {
      if Holds(t1, a, q) {
        var u :| u in t1 && q <= u && u in a;
        assert u in b;
      }
      if Holds(t1, b, q) {
        var u :| u in t1 && q <= u && u in b;
        assert u in a;
      }
    }
  }

  lemma ClearingKeeps(t: Nodes, t1: Nodes, t2: Nodes, p: Path, n: Name, pins: set<Path>)
    requires Clearing(t, t1, p, pins, []) && Between(Shed(t1, p + [n], pins), t2, t1)
    ensures Clearing(t, t2, p, pins, [])
  {
    forall q | q in t && (p < q ==> Holds(t, pins, q)) ensures q in t2 {
      HoldsStays(t, t1, p, pins, q);
      assert p + [n] <= q ==> p < q;
      assert q in Shed(t1, p + [n], pins);
    }
  }

  // ---- The whole directory ----

  lemma EntriesAreAll(t: Nodes, t1: Nodes, p: Path, es: seq<DirEntry>)
    requires Lists(t, p, es) && Within(t1, t)
    ensures SomeLeft(t1, p, es, |es|) <==> Kids(t1, p) != {}
    ensures AllIn(Kids(t1, p), Names(es)[..|es|])
  {
    forall n | n in Kids(t1, p) ensures exists i :: 0 <= i < |es| && es[i].name == n && p + [es[i].name] in t1 {
      KidsAre(t1, p, n);
      KidsAre(t, p, n);
    }
    assert Names(es)[..|es|] == Names(es);
    forall n | n in Kids(t1, p) ensures n in Names(es) {
      var i :| 0 <= i < |es| && es[i].name == n;
      assert Names(es)[i] == n;
    }
    if SomeLeft(t1, p, es, |es|) {
      var i :| 0 <= i < |es| && p + [es[i].name] in t1;
      KidsAre(t1, p, es[i].name);
    }
    if Kids(t1, p) != {} {
      var n :| n in Kids(t1, p);
    }
  }

  lemma PruneKept(t: Nodes, t1: Nodes, p: Path, tried: seq<Name>, denylist: Path -> bool)
    requires Clearing(t, t1, p, Denied(t, p, denylist), tried)
    ensures Between(Prune(t, p, denylist), t1, t)
  {
    var pins := Denied(t, p, denylist);
    forall q | q in Prune(t, p, denylist) && p < q ensures Holds(t, pins, q) {
      var u :| u in t && q <= u && u in pins + if p == [] then {[]} else {};
      assert u in pins;
    }
  }

  lemma PruneIsShed(t: Nodes, p: Path, denylist: Path -> bool)
    requires p != []
    ensures Prune(t, p, denylist) == Shed(t, p, Denied(t, p, denylist))
  {
    assert Denied(t, p, denylist) + {} == Denied(t, p, denylist);
  }

  lemma NotDenied(t: Nodes, p: Path, denylist: Path -> bool)
    requires !denylist(p)
    ensures p !in Denied(t, p, denylist)
  {
    assert p[..|p|] == p;
  }

  /** An emptied directory does not lead to anything that must stay. */
  lemma NotHeld(t: Nodes, t1: Nodes, p: Path, pins: set<Path>, tried: seq<Name>)
    requires WellFormed(t1) && Clearing(t, t1, p, pins, tried) && Kids(t1, p) == {} && p !in pins
    ensures !Holds(t, pins, p)
  {
    if Holds(t, pins, p) {
      var u :| u in t && p <= u && u in pins;
      assert u != p && p < u;
      PinBelow(t, pins, u, u);
      NothingBelow(t1, p, u);
    }
  }

  lemma NothingHeld(t: Nodes, t1: Nodes, p: Path, tried: seq<Name>, denylist: Path -> bool)
    requires WellFormed(t1) && Clearing(t, t1, p, Denied(t, p, denylist), tried)
    requires Kids(t1, p) == {} && !denylist(p) && p != []
    ensures Between(Prune(t, p, denylist), t1 - {p}, t)
  {
    NotDenied(t, p, denylist);
    NotHeld(t, t1, p, Denied(t, p, denylist), tried);
    PruneKept(t, t1, p, tried, denylist);
    PruneIsShed(t, p, denylist);
    assert p <= p;
  }

  lemma StuckHere(t: Nodes, t1: Nodes, p: Path, stuck: set<Path>)
    requires Within(t1, t) && p in t
    ensures Unpinned(t, stuck, p) ==> p !in stuck
  {
    assert p <= p;
  }

  lemma ShedReached(t: Nodes, t1: Nodes, p: Path, pins: set<Path>)
    requires WellFormed(t1) && p in t && Cleared(t, t1, p, pins) && p !in pins
    ensures Holds(t, pins, p) <==> Kids(t1, p) != {}
    ensures Shed(t, p, pins) == if Kids(t1, p) != {} then t1 else t1 - {p}
  {
    HeldByRest(t, t1, p, pins);
    ShedAfterClearing(t, t1, if Kids(t1, p) != {} then t1 else t1 - {p}, p, pins);
  }

  lemma PruneReached(t: Nodes, t1: Nodes, p: Path, tried: seq<Name>, denylist: Path -> bool)
    requires WellFormed(t1) && p in t && !denylist(p)
    requires Clearing(t, t1, p, Denied(t, p, denylist), tried) && AllIn(Kids(t1, p), tried)
    ensures Holds(t, Denied(t, p, denylist), p) <==> Kids(t1, p) != {}
    ensures Prune(t, p, denylist) == if p == [] || Kids(t1, p) != {} then t1 else t1 - {p}
  {
    NotDenied(t, p, denylist);
    ClearingEnds(t, t1, p, Denied(t, p, denylist), tried);
    ShedReached(t, t1, p, Denied(t, p, denylist));
    if p == [] {
      PruneOfBase(t, t1, denylist);
    } else {
      PruneIsShed(t, p, denylist);
    }
  }

  lemma PruneOfBase(t: Nodes, t1: Nodes, denylist: Path -> bool)
    requires Cleared(t, t1, [], Denied(t, [], denylist)) && [] in t
    ensures Prune(t, [], denylist) == t1
  {
    var pins := Denied(t, [], denylist);
    forall q | q in t ensures q in t1 <==> Holds(t, pins + {[]}, q) {
      if q == [] {
        PinBelow(t, pins + {[]}, q, q);
      } else {
        assert [] < q;
        HeldWithBase(t, pins, q);
      }
    }
  }

  lemma HeldWithBase(t: Nodes, pins: set<Path>, q: Path)
    requires q != []
    ensures Holds(t, pins, q) <==> Holds(t, pins + {[]}, q)
  {
    if Holds(t, pins, q) {
      var u :| u in t && q <= u && u in pins;
      assert u in pins + {[]};
    }
    if Holds(t, pins + {[]}, q) {
      var u :| u in t && q <= u && u in pins + {[]};
      assert u in pins;
    }
  }

  // ---- What a prune leaves ----

  ghost predicate ChildLeft(t: Nodes, t': Nodes, q: Path) {
    exists n :: n in Kids(t, q) && q + [n] in t'
  }

  /**
   Outside `p` nothing changes.  From `p` down a file or link survives exactly when it or a directory
   above it, from `p` on, is denylisted; a directory also survives when something in it does.
   */
  lemma PruneMeaning(t: Nodes, p: Path, denylist: Path -> bool, q: Path)
    requires WellFormed(t) && q in t
    ensures q in Prune(t, p, denylist) <==>
              || !(p <= q) || q == []
              || (exists k :: |p| <= k <= |q| && denylist(q[..k]))
              || (exists n :: n in Kids(t, q) && q + [n] in Prune(t, p, denylist))
    ensures q in Prune(t, p, denylist) ==> Prune(t, p, denylist)[q] == t[q]
    ensures Kids(t, q) != {} ==> t[q].Dir?
  {
    var pins := Denied(t, p, denylist) + if p == [] then {[]} else {};
    if p <= q {
      HeldByChild(t, p, pins, q);
    }
    if !t[q].Dir? {
      LeafHasNoKids(t, q);
    }
  }

  lemma HeldByChild(t: Nodes, p: Path, pins: set<Path>, q: Path)
    requires WellFormed(t) && q in t && p <= q
    ensures q in Shed(t, p, pins) <==> q in pins || ChildLeft(t, Shed(t, p, pins), q)
  {
    if q in pins {
      PinBelow(t, pins, q, q);
    } else if Holds(t, pins, q) {
      var u :| u in t && q <= u && u in pins;
      assert u != q && q < u;
      LeadsDown(t, p, pins, q, u);
    }
    if ChildLeft(t, Shed(t, p, pins), q) {
      var n :| n in Kids(t, q) && q + [n] in Shed(t, p, pins);
      assert p <= q + [n];
      PinBelow(t, pins, q, q + [n]);
    }
  }

  lemma LeadsDown(t: Nodes, p: Path, pins: set<Path>, q: Path, u: Path)
    requires WellFormed(t) && u in t && q < u && u in pins
    ensures u[|q|] in Kids(t, q) && q + [u[|q|]] in Shed(t, p, pins)
  {
    var c := q + [u[|q|]];
    if c != u {
      AncestorIsDir(t, c, u);
    }
    KidsAre(t, q, u[|q|]);
    assert c <= u;
  }

  /** Pruning twice is pruning once. */
  lemma PruneIdempotent(t: Nodes, p: Path, denylist: Path -> bool)
    ensures Prune(Prune(t, p, denylist), p, denylist) == Prune(t, p, denylist)
  {
    var base := if p == [] then {[]} else {};
    var pins := Denied(t, p, denylist) + base;
    var s := Prune(t, p, denylist);
    ShedTwice(t, p, pins);
    SamePins(s, p, pins, Denied(s, p, denylist) + base);
  }

  lemma SamePins(t: Nodes, p: Path, a: set<Path>, b: set<Path>)
    requires forall u :: u in t ==> (u in a <==> u in b)
    ensures Shed(t, p, a) == Shed(t, p, b)
  {
    forall q | q in t ensures Holds(t, a, q) <==> Holds(t, b, q) {
      if Holds(t, a, q) {
        var u :| u in t && q <= u && u in a;
        assert u in b;
      }
      if Holds(t, b, q) {
        var u :| u in t && q <= u && u in b;
        assert u in a;
      }
    }
  }
}
