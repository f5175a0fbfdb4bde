/**
 How a removal that cannot touch some entries gets to the tree it leaves: the progress of the loops
 of removeall_unix.go, one name at a time.
 */
module Removal {
  import opened Prelude
  import opened Paths
  import opened Tree

  // ---- Progress of the clearing loops ----

  /** Nothing strictly below `d` is left except what leads to a pinned entry; `d` itself is untouched. */
  ghost predicate Cleared(t: Nodes, t': Nodes, d: Path, pins: set<Path>) {
    && Within(t', t)
    && forall q :: q in t ==> (q in t' <==> (d < q ==> Holds(t, pins, q)))
  }

  /** The state of the loops: the entries named in `tried` are done, everything that must stay is there. */
  ghost predicate Clearing(t: Nodes, t': Nodes, d: Path, pins: set<Path>, tried: seq<Name>) {
    && Within(t', t)
    && (forall q {:trigger q in t'} :: q in t && (d < q ==> Holds(t, pins, q)) ==> q in t')
    && (forall q {:trigger q in t'} :: q in t' && d < q && q[|d|] in tried ==> Holds(t, pins, q))
  }

  ghost predicate AllIn(names: set<Name>, list: seq<Name>) {
    forall n :: n in names ==> n in list
  }

  lemma ClearingStarts(t: Nodes, d: Path, pins: set<Path>)
    ensures Clearing(t, t, d, pins, [])
  {
  }

  lemma BelowShrinks(t: Nodes, t': Nodes, d: Path, n: Name)
    requires Within(t', t) && d in t'
    ensures Below(t', d) <= Below(t, d) && Below(t', d + [n]) < Below(t, d)
  {
    SubtreeShrinks(t, t', d, d);
    SubtreeShrinks(t, t', d, d + [n]);
  }

  lemma StillThere(t: Nodes, t': Nodes, d: Path, pins: set<Path>, tried: seq<Name>)
    requires Clearing(t, t', d, pins, tried) && IsDir(t, d)
    ensures IsDir(t', d)
    ensures Unpinned(t, pins, d) ==> Unpinned(t', pins, d)
    ensures forall n :: Unpinned(t', pins, d) ==> Unpinned(t', pins, d + [n])
  {
  }

  /** Entries that must stay are held by the same pins before and after. */
  lemma HoldsStays(t: Nodes, t1: Nodes, d: Path, pins: set<Path>, q: Path)
    requires Within(t1, t) && forall x :: x in t && (d < x ==> Holds(t, pins, x)) ==> x in t1
    ensures Holds(t, pins, q) <==> Holds(t1, pins, q)
  {
    if Holds(t, pins, q) {
      var u :| u in t && q <= u && u in pins;
      PinBelow(t, pins, u, u);
      assert u in t1;
    }
  }

  lemma ClearingOne(t: Nodes, t1: Nodes, t2: Nodes, d: Path, names: seq<Name>, i: nat, pins: set<Path>)
    requires i < |names| && Clearing(t, t1, d, pins, names[..i]) && t2 == Shed(t1, d + [names[i]], pins)
    ensures Clearing(t, t2, d, pins, names[..i + 1]) && Within(t2, t1)
    ensures Kids(t2, d) == if d + [names[i]] in t2 then Kids(t1, d) else Kids(t1, d) - {names[i]}
  {
    var n := names[i];
    assert Clearing(t1, t2, d, pins, [n]) by {
      assert forall q :: q in t1 && d + [n] <= q ==> d < q;
    }
    assert names[..i + 1] == names[..i] + [n];
    ClearingContinues(t, t1, t2, d, pins, names[..i], [n]);
    KidsAfter(t1, t2, d, n, pins);
  }

  lemma ClearingContinues(t: Nodes, t1: Nodes, t2: Nodes, d: Path, pins: set<Path>, a: seq<Name>, b: seq<Name>)
    requires Clearing(t, t1, d, pins, a) && Clearing(t1, t2, d, pins, b)
    ensures Clearing(t, t2, d, pins, a + b) && Within(t2, t1)
  {
    forall q | q in t1 ensures Holds(t, pins, q) <==> Holds(t1, pins, q) {
      HoldsStays(t, t1, d, pins, q);
    }
  }

  lemma ClearingEnds(t: Nodes, t': Nodes, d: Path, pins: set<Path>, tried: seq<Name>)
    requires WellFormed(t') && Clearing(t, t', d, pins, tried) && AllIn(Kids(t', d), tried)
    ensures Cleared(t, t', d, pins)
  {
    forall q | q in t' && d < q ensures Holds(t, pins, q) {
      NameBelow(t', d, q);
    }
  }

  lemma KidsAfter(t: Nodes, t': Nodes, d: Path, n: Name, pins: set<Path>)
    requires t' == Shed(t, d + [n], pins)
    ensures Kids(t', d) == if d + [n] in t' then Kids(t, d) else Kids(t, d) - {n}
  {
    forall m ensures m in Kids(t', d) <==> m in Kids(t, d) && (m == n ==> d + [n] in t') {
      KidsAre(t, d, m);
      KidsAre(t', d, m);
      if m != n {
        assert (d + [m])[|d|] != (d + [n])[|d|];
        assert !(d + [n] <= d + [m]);
      }
    }
  }

  lemma {:induction false} NothingBelow(t: Nodes, p: Path, q: Path)
    requires WellFormed(t) && Kids(t, p) == {} && q in t
    ensures !(p < q)
    decreases |q|
  {
    if p < q {
      assert q == Parent(q) + [Last(q)];
      KidsAre(t, p, Last(q));
      if Parent(q) != p {
        NothingBelow(t, p, Parent(q));
      }
    }
  }

  /** One unlink of a file, or of nothing, already is the whole removal. */
  lemma ShedAfterUnlink(t: Nodes, t': Nodes, p: Path, pins: set<Path>)
    requires WellFormed(t) && p != [] && !IsDir(t, p)
    requires t' == t || (t' == t - {p} && p !in pins)
    requires t' == t && p in t ==> p in pins
    ensures t' == Shed(t, p, pins)
  {
    forall q | q in t && p <= q ensures q == p {
      if p < q {
        AncestorIsDir(t, p, q);
      }
    }
    forall q | q in t ensures q in t' <==> (p <= q ==> Holds(t, pins, q)) {
      if p <= q && q in pins {
        assert Holds(t, pins, q);
      }
    }
  }

  /** After the clearing, the directory itself has to stay exactly when something in it stayed. */
  lemma HeldByRest(t: Nodes, t1: Nodes, p: Path, pins: set<Path>)
    requires WellFormed(t1) && p in t && Cleared(t, t1, p, pins)
    ensures Holds(t, pins, p) <==> p in pins || Kids(t1, p) != {}
  {
    if p in pins {
      PinBelow(t, pins, p, p);
    } else if Kids(t1, p) != {} {
      var n :| n in Kids(t1, p);
      KidsAre(t1, p, n);
      assert Holds(t, pins, p + [n]) by {
        assert p < p + [n];
      }
      PinBelow(t, pins, p, p + [n]);
    } else {
      forall u | u in t && p <= u ensures u !in pins {
        if u != p {
          NothingLeft(t, t1, p, pins, u);
        }
      }
    }
  }

  lemma NothingLeft(t: Nodes, t1: Nodes, p: Path, pins: set<Path>, u: Path)
    requires WellFormed(t1) && Cleared(t, t1, p, pins) && Kids(t1, p) == {} && u in t && p < u
    ensures u !in pins
  {
    if u in pins {
      PinBelow(t, pins, u, u);
      assert u in t1;
      NothingBelow(t1, p, u);
    }
  }

  lemma ShedAfterClearing(t: Nodes, t1: Nodes, t2: Nodes, p: Path, pins: set<Path>)
    requires p in t && Cleared(t, t1, p, pins)
    requires t2 == if Holds(t, pins, p) then t1 else t1 - {p}
    ensures t2 == Shed(t, p, pins)
  {
    forall q | q in t ensures q in t2 <==> q in Shed(t, p, pins) {
      if q != p {
        assert p <= q <==> p < q;
      }
    }
  }

  lemma PinBelow(t: Nodes, pins: set<Path>, p: Path, q: Path)
    requires p <= q && (Holds(t, pins, q) || (q in t && q in pins))
    ensures Holds(t, pins, p)
  {
    if q !in t || q !in pins {
      var u :| u in t && q <= u && u in pins;
      assert p <= u;
    }
  }

  lemma RemoveKeepsWellFormed(t: Nodes, p: Path)
    requires WellFormed(t) && p != [] && Kids(t, p) == {}
    ensures WellFormed(t - {p})
  {
    forall q {:trigger Parent(q)} | q in t && q != p && q != [] ensures IsDir(t - {p}, Parent(q)) {
      assert q == Parent(q) + [Last(q)];
      KidsAre(t, p, Last(q));
    }
  }

  lemma GoneOne(t: Nodes, p: Path, sizes: Sizes)
    requires Sized(t, sizes) && p in t
    ensures Gone(t, t - {p}, sizes) == map[] <==> !t[p].File?
    ensures t[p].File? ==> Sum(Gone(t, t - {p}, sizes)) == sizes[t[p].ino]
  {
    var g := Gone(t, t - {p}, sizes);
    if t[p].File? {
      assert p in g;
      SumRemove(g, p);
      assert g - {p} == map[];
    }
  }

  lemma ShedByRemove(t: Nodes, t': Nodes, p: Path, pins: set<Path>)
    requires WellFormed(t)
    requires p !in t || (t' == t - {p} && p !in pins && Kids(t, p) == {})
    requires p !in t ==> t' == t
    ensures t' == Shed(t, p, pins)
  {
    forall q | q in t && p <= q ensures q == p {
      if p !in t && p < q {
        AncestorIsDir(t, p, q);
      }
      if p < q {
        NothingBelow(t, p, q);
      }
    }
  }

  lemma LeafHasNoKids(t: Nodes, p: Path)
    requires WellFormed(t) && p in t && !t[p].Dir?
    ensures Kids(t, p) == {}
  {
    assert forall q :: q in t && q != [] ==> IsDir(t, Parent(q));
  }

  // ---- Entries whose removal is refused ----

  /** The entries that cannot be removed below the names `names` of directory `d`. */
  function PinnedUnder(t: Nodes, pins: set<Path>, d: Path, names: seq<Name>): set<Path> {
    set q | q in t && d < q && q in pins && q[|d|] in names
  }

  lemma PinnedLeaf(t: Nodes, pins: set<Path>, p: Path)
    requires WellFormed(t) && !IsDir(t, p)
    ensures Pinned(t, pins, p) == if p in t && p in pins then {p} else {}
  {
    LeafIsAlone(t, p);
  }

  lemma PinnedChild(t: Nodes, pins: set<Path>, d: Path, n: Name)
    ensures Pinned(t, pins, d + [n]) == PinnedUnder(t, pins, d, [n])
  {
    assert forall q :: d < q && q[|d|] == n <==> d + [n] <= q;
  }

  lemma PinnedGrows(t: Nodes, pins: set<Path>, d: Path, a: seq<Name>, b: seq<Name>)
    ensures PinnedUnder(t, pins, d, a + b) == PinnedUnder(t, pins, d, a) + PinnedUnder(t, pins, d, b)
  {
  }

  lemma PinnedStays(t: Nodes, t1: Nodes, d: Path, pins: set<Path>, tried: seq<Name>, names: seq<Name>)
    requires Clearing(t, t1, d, pins, tried)
    ensures PinnedUnder(t1, pins, d, names) == PinnedUnder(t, pins, d, names)
  {
    forall q | q in t && d < q && q in pins ensures q in t1 {
      PinBelow(t, pins, q, q);
    }
  }

  lemma PinnedNext(t: Nodes, t1: Nodes, pins: set<Path>, d: Path, names: seq<Name>, i: nat)
    requires i < |names| && Clearing(t, t1, d, pins, names[..i])
    ensures PinnedUnder(t, pins, d, names[..i + 1]) ==
              PinnedUnder(t, pins, d, names[..i]) + Pinned(t1, pins, d + [names[i]])
  {
    PinnedChild(t1, pins, d, names[i]);
    PinnedStays(t, t1, d, pins, names[..i], [names[i]]);
    PinnedGrows(t, pins, d, names[..i], [names[i]]);
    assert names[..i + 1] == names[..i] + [names[i]];
  }

  /** A directory itself is not charged. */
  lemma ChargedDir(u: int, t: Nodes, u1: int, t1: Nodes, u2: int, t2: Nodes, sizes: Sizes, pins: set<Path>, p: Path)
    requires Sized(t, sizes) && IsDir(t, p) && Within(t1, t) && Within(t2, t1)
    requires Charged(u, t, u1, t1, sizes, Pinned(t, pins, p) - {p})
    requires Sized(t1, sizes) && Charged(u1, t1, u2, t2, sizes, {})
    ensures Charged(u, t, u2, t2, sizes, Pinned(t, pins, p))
  {
    var a := Pinned(t, pins, p) - {p};
    ChargedMore(u, t, u1, t1, u2, t2, sizes, a);
    ChargedSame(u, t, u2, t2, sizes, a, Pinned(t, pins, p));
  }

  /** What one `unlinkat` charges, whether it succeeds or not. */
  lemma UnlinkCharge(u: int, t: Nodes, u': int, t': Nodes, sizes: Sizes, p: Path, rmdir: bool, pins: set<Path>)
    requires Sized(t, sizes) && u >= -1
    requires u' == if !rmdir && p in t && t[p].File? then Max(0, u - sizes[t[p].ino]) else u
    requires t' == t || (p in t && t' == t - {p} && p !in pins && rmdir == t[p].Dir?)
    requires t' == t && !rmdir && p in t && t[p].File? ==> p in pins
    ensures Charged(u, t, u', t', sizes, if rmdir then {} else {p} * t.Keys * pins)
  {
    var lost := if rmdir then {} else {p} * t.Keys * pins;
    if t' == t {
      if !rmdir && p in t && t[p].File? {
        assert lost == {p};
        FileRefused(u, t, p, sizes);
      } else {
        NoCharge(u, t, sizes, lost);
      }
    } else {
      assert lost == {};
      if t[p].File? {
        FileGone(u, t, p, sizes);
      } else {
        OtherGone(u, t, p, sizes);
      }
    }
  }

  /** The first `unlinkat` settles everything that is not a directory. */
  lemma LeafDone(u: int, t: Nodes, u': int, t': Nodes, sizes: Sizes, p: Path, pins: set<Path>)
    requires WellFormed(t) && !IsDir(t, p) && Sized(t, sizes)
    requires if p in t && p !in pins then t' == t - {p} else t' == t
    requires Charged(u, t, u', t', sizes, {p} * t.Keys * pins)
    ensures t' == Shed(t, p, pins) && Charged(u, t, u', t', sizes, Pinned(t, pins, p))
  {
    ShedAfterUnlink(t, t', p, pins);
    PinnedLeaf(t, pins, p);
    assert {p} * t.Keys * pins == Pinned(t, pins, p);
  }

  lemma NonePinned(t: Nodes, p: Path, pins: set<Path>)
    requires WellFormed(t) && (p in t ==> p !in pins && Kids(t, p) == {})
    ensures Pinned(t, pins, p) == {}
  {
    forall q | q in t && p <= q ensures q == p && p in t {
      if p != q {
        NameBelow(t, p, q);
      }
    }
  }

  /** Once every name left in the directory was tried, so was everything that cannot be removed. */
  lemma PinnedAll(t: Nodes, t1: Nodes, d: Path, pins: set<Path>, tried: seq<Name>)
    requires WellFormed(t1) && Clearing(t, t1, d, pins, tried) && AllIn(Kids(t1, d), tried)
    ensures PinnedUnder(t, pins, d, tried) == Pinned(t, pins, d) - {d}
  {
    forall q | q in t && d < q && q in pins ensures q[|d|] in tried {
      PinBelow(t, pins, q, q);
      NameBelow(t1, d, q);
    }
    forall q ensures q in PinnedUnder(t, pins, d, tried) <==> q in Pinned(t, pins, d) - {d} {
      assert d < q <==> d <= q && q != d;
    }
  }

  lemma NameBelow(t: Nodes, d: Path, q: Path)
    requires WellFormed(t) && q in t && d < q
    ensures q[|d|] in Kids(t, d)
  {
    var c := d + [q[|d|]];
    if c != q {
      AncestorIsDir(t, c, q);
    }
    KidsAre(t, d, q[|d|]);
  }

  // ---- Charges ----

  lemma LostNone(t: Nodes, sizes: Sizes, lost: set<Path>)
    requires Sized(t, sizes) && forall q :: q in lost && q in t ==> !t[q].File?
    ensures Lost(t, lost, sizes) == 0
  {
    LostMeaning(t, lost, sizes);
  }

  lemma GoneNone(t: Nodes, sizes: Sizes)
    requires Sized(t, sizes)
    ensures Gone(t, t, sizes) == map[] && Sum(Gone(t, t, sizes)) == 0
  {
    SumZero(Gone(t, t, sizes));
  }

  /** Nothing removed, and no regular file refused. */
  lemma NoCharge(u: int, t: Nodes, sizes: Sizes, lost: set<Path>)
    requires Sized(t, sizes) && u >= -1 && forall q :: q in lost && q in t ==> !t[q].File?
    ensures Charged(u, t, u, t, sizes, lost)
  {
    GoneNone(t, sizes);
    LostNone(t, sizes, lost);
  }

  /** A regular file that was charged and removed. */
  lemma FileGone(u: int, t: Nodes, p: Path, sizes: Sizes)
    requires Sized(t, sizes) && u >= -1 && p in t && t[p].File?
    ensures Charged(u, t, Max(0, u - sizes[t[p].ino]), t - {p}, sizes, {})
  {
    GoneOne(t, p, sizes);
    LostNone(t, sizes, {});
  }

  /** A regular file that was charged although it stays. */
  lemma FileRefused(u: int, t: Nodes, p: Path, sizes: Sizes)
    requires Sized(t, sizes) && u >= -1 && p in t && t[p].File?
    ensures Charged(u, t, Max(0, u - sizes[t[p].ino]), t, sizes, {p})
  {
    GoneNone(t, sizes);
    var m := Refused(t, {p}, sizes);
    assert p in m;
    SumRemove(m, p);
    assert m - {p} == map[];
    SumZero(m - {p});
  }

  /** Something else than a regular file that was removed. */
  lemma OtherGone(u: int, t: Nodes, p: Path, sizes: Sizes)
    requires Sized(t, sizes) && u >= -1 && p in t && !t[p].File?
    ensures Charged(u, t, u, t - {p}, sizes, {})
  {
    GoneOne(t, p, sizes);
    SumZero(Gone(t, t - {p}, sizes));
    LostNone(t, sizes, {});
  }

  /** The loop over the entries of a directory: what is cleared, and what was charged for it. */
  ghost predicate Emptying(u: int, t: Nodes, u': int, t': Nodes, sizes: Sizes, d: Path, pins: set<Path>, tried: seq<Name>) {
    && Sized(t, sizes) && Clearing(t, t', d, pins, tried)
    && Charged(u, t, u', t', sizes, PinnedUnder(t, pins, d, tried))
  }

  lemma EmptyingStarts(u: int, t: Nodes, sizes: Sizes, d: Path, pins: set<Path>)
    requires Sized(t, sizes) && u >= -1
    ensures Emptying(u, t, u, t, sizes, d, pins, [])
  {
    ClearingStarts(t, d, pins);
    assert PinnedUnder(t, pins, d, []) == {};
    NoCharge(u, t, sizes, {});
  }

  lemma EmptyingContinues(u: int, t: Nodes, u1: int, t1: Nodes, u2: int, t2: Nodes, sizes: Sizes, d: Path, pins: set<Path>,
                          a: seq<Name>, b: seq<Name>)
    requires Emptying(u, t, u1, t1, sizes, d, pins, a) && Emptying(u1, t1, u2, t2, sizes, d, pins, b)
    ensures Emptying(u, t, u2, t2, sizes, d, pins, a + b)
  {
    ClearingContinues(t, t1, t2, d, pins, a, b);
    PinnedStays(t, t1, d, pins, a, b);
    PinnedGrows(t, pins, d, a, b);
    ChargedTwice(u, t, u1, t1, u2, t2, sizes, PinnedUnder(t, pins, d, a), PinnedUnder(t1, pins, d, b));
  }

  lemma EmptyingOne(u: int, t: Nodes, u1: int, t1: Nodes, u2: int, t2: Nodes, sizes: Sizes, d: Path, pins: set<Path>,
                    names: seq<Name>, i: nat)
    requires i < |names| && Emptying(u, t, u1, t1, sizes, d, pins, names[..i]) && Sized(t1, sizes)
    requires t2 == Shed(t1, d + [names[i]], pins)
    requires Charged(u1, t1, u2, t2, sizes, Pinned(t1, pins, d + [names[i]]))
    ensures Emptying(u, t, u2, t2, sizes, d, pins, names[..i + 1])
    ensures Kids(t2, d) == if d + [names[i]] in t2 then Kids(t1, d) else Kids(t1, d) - {names[i]}
  {
    ClearingOne(t, t1, t2, d, names, i, pins);
    PinnedNext(t, t1, pins, d, names, i);
    ChargedTwice(u, t, u1, t1, u2, t2, sizes, PinnedUnder(t, pins, d, names[..i]), Pinned(t1, pins, d + [names[i]]));
  }

  lemma EmptyingEnds(u: int, t: Nodes, u': int, t': Nodes, sizes: Sizes, d: Path, pins: set<Path>, tried: seq<Name>)
    requires Emptying(u, t, u', t', sizes, d, pins, tried) && WellFormed(t') && AllIn(Kids(t', d), tried)
    ensures Cleared(t, t', d, pins)
    ensures Charged(u, t, u', t', sizes, Pinned(t, pins, d) - {d})
  {
    ClearingEnds(t, t', d, pins, tried);
    PinnedAll(t, t', d, pins, tried);
  }

  lemma KidsWithin(t: Nodes, t': Nodes, d: Path)
    requires Within(t', t)
    ensures Kids(t', d) <= Kids(t, d)
  {
    forall n | n in Kids(t', d) ensures n in Kids(t, d) {
      KidsAre(t', d, n);
      KidsAre(t, d, n);
    }
  }

  /** All the names are those of entries of the directory. */
  ghost predicate NamesIn(t: Nodes, d: Path, names: seq<Name>) {
    forall n :: n in names ==> n in Kids(t, d)
  }

  lemma NextName(t: Nodes, d: Path, names: seq<Name>, i: nat)
    requires i < |names| && NamesIn(t, d, names)
    ensures names[i] in Kids(t, d) && names[..i] + [names[i]] == names[..i + 1]
  {
  }

  /** And how many of the names could not be removed; the number of entries tells whether any was. */
  ghost predicate Counted(u: int, t: Nodes, u': int, t': Nodes, sizes: Sizes, d: Path, pins: set<Path>, tried: seq<Name>, numErr: nat) {
    && Emptying(u, t, u', t', sizes, d, pins, tried) && numErr <= |tried|
    && if numErr == |tried| then |Kids(t', d)| == |Kids(t, d)| else |Kids(t', d)| < |Kids(t, d)|
  }

  lemma CountedStarts(u: int, t: Nodes, sizes: Sizes, d: Path, pins: set<Path>, names: seq<Name>)
    requires Sized(t, sizes) && u >= -1
    ensures Counted(u, t, u, t, sizes, d, pins, names[..0], 0)
  {
    EmptyingStarts(u, t, sizes, d, pins);
    assert names[..0] == [];
  }

  lemma CountedEnds(u: int, t: Nodes, u': int, t': Nodes, sizes: Sizes, d: Path, pins: set<Path>, names: seq<Name>, numErr: nat)
    requires Counted(u, t, u', t', sizes, d, pins, names[..|names|], numErr)
    ensures Counted(u, t, u', t', sizes, d, pins, names, numErr)
  {
    assert names[..|names|] == names;
  }

  /** One name of a batch: either it is still there, or one name less is left. */
  lemma EmptyingName(u: int, t: Nodes, u1: int, t1: Nodes, u2: int, t2: Nodes, sizes: Sizes, d: Path, pins: set<Path>,
                     done: seq<Name>, n: Name)
    requires Emptying(u, t, u1, t1, sizes, d, pins, done) && Sized(t1, sizes)
    requires n in Kids(t, d) && t2 == Shed(t1, d + [n], pins) && Charged(u1, t1, u2, t2, sizes, Pinned(t1, pins, d + [n]))
    ensures Emptying(u, t, u2, t2, sizes, d, pins, done + [n])
    ensures if d + [n] in t2 then |Kids(t2, d)| == |Kids(t1, d)| else |Kids(t2, d)| < |Kids(t, d)|
  {
    var names := done + [n];
    assert names[..|done|] == done && names[..|done| + 1] == names;
    EmptyingOne(u, t, u1, t1, u2, t2, sizes, d, pins, names, |done|);
    assert d + [n] !in t2 ==> n !in Kids(t2, d);
    KidsWithin(t, t2, d);
    SubsetSize(Kids(t2, d), Kids(t, d));
  }

  /** One batch more. */
  lemma AllInMore(given: set<Name>, tried: seq<Name>, names: seq<Name>)
    requires AllIn(given, tried)
    ensures AllIn(given + (set x | x in names), tried + names)
  {
  }

  lemma EmptyingBelow(u: int, t: Nodes, u': int, t': Nodes, sizes: Sizes, d: Path, pins: set<Path>, tried: seq<Name>)
    requires Emptying(u, t, u', t', sizes, d, pins, tried) && IsDir(t, d)
    ensures IsDir(t', d) && Below(t', d) <= Below(t, d)
  {
    StillThere(t, t', d, pins, tried);
    BelowShrinks(t, t', d, "");
  }

  lemma EmptyingChild(u: int, t: Nodes, u': int, t': Nodes, sizes: Sizes, d: Path, pins: set<Path>, tried: seq<Name>, n: Name)
    requires Emptying(u, t, u', t', sizes, d, pins, tried) && IsDir(t, d)
    ensures IsDir(t', d) && Below(t', d + [n]) < Below(t, d)
  {
    StillThere(t, t', d, pins, tried);
    BelowShrinks(t, t', d, n);
  }

  /** A removal keeps everything that cannot be removed. */
  lemma ShedKeepsPinned(t: Nodes, p: Path, pins: set<Path>)
    ensures t.Keys * pins <= Shed(t, p, pins).Keys
  {
    forall q | q in t && q in pins ensures Holds(t, pins, q) {
      PinBelow(t, pins, q, q);
    }
  }

  /**
   Below a regular file there is nothing to remove, yet the path does not resolve either: a removal of
   such a path changes nothing and still reports an error.
   */
  lemma GoneButUnresolved()
    ensures exists t: Nodes, p: Path ::
              && WellFormed(t) && CleanPath(p) && p != [] && p !in t && Shed(t, p, {}) == t
              && Resolve(t, p) == Failure(ENOTDIR)
  {
    var t: Nodes := map[[] := Dir, ["f"] := File(0)];
    var p: Path := ["f", "x"];
    assert Parent(p) == ["f"];
    assert Parent(["f"]) == [];
    assert Resolve(t, []) == Success(Dir);
    assert Resolve(t, ["f"]) == Success(File(0));
    assert WellFormed(t) by {
      forall q {:trigger Parent(q)} | q in t && q != [] ensures IsDir(t, Parent(q)) {
        assert q == ["f"];
      }
    }
    assert Shed(t, p, {}) == t;
  }
}
