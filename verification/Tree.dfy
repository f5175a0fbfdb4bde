/**
 The disk as a value: a map from component lists to entries, and a table of inode sizes.
 The empty list is the base directory of the sandbox.  Symbolic links are leaves.
 */
module Tree {
  import opened Prelude
  import opened Paths

  datatype Entry = Dir | File(ino: nat) | Link

  type Nodes = map<Path, Entry>

  type Sizes = map<nat, nat>

  function Parent(p: Path): Path
    requires p != []
  {
    p[..|p| - 1]
  }

  function Last(p: Path): Name
    requires p != []
  {
    p[|p| - 1]
  }

  predicate IsDir(t: Nodes, p: Path) {
    p in t && t[p].Dir?
  }

  /** The base is a directory, every other entry lies in a directory, and names are real names. */
  ghost predicate WellFormed(t: Nodes) {
    && IsDir(t, [])
    && (forall p {:trigger Parent(p)} :: p in t && p != [] ==> IsDir(t, Parent(p)))
    && (forall p :: p in t ==> CleanPath(p))
  }

  /** Every regular file has a size. */
  ghost predicate Sized(t: Nodes, sizes: Sizes) {
    forall p :: p in t && t[p].File? ==> t[p].ino in sizes
  }

  /** The names inside directory `d`. */
  function Kids(t: Nodes, d: Path): (names: set<Name>) {
    set p | p in t && p != [] && Parent(p) == d :: Last(p)
  }

  /** How many entries there are at or below `p`. */
  ghost function Below(t: Nodes, p: Path): nat {
    |Subtree(t, p)|
  }

  ghost function Subtree(t: Nodes, p: Path): set<Path> {
    set q | q in t && p <= q
  }

  lemma SubtreeShrinks(t: Nodes, t': Nodes, p: Path, q: Path)
    requires t'.Keys <= t.Keys && p <= q
    ensures Below(t', q) <= Below(t, p)
    ensures p != q && p in t ==> Below(t', q) < Below(t, p)
  {
    SubsetSize(Subtree(t', q), Subtree(t, p));
    assert p != q && p in t ==> p in Subtree(t, p) && p !in Subtree(t', q);
  }

  lemma KidsAre(t: Nodes, d: Path, n: Name)
    ensures n in Kids(t, d) <==> d + [n] in t
  {
    if d + [n] in t {
      assert Parent(d + [n]) == d && Last(d + [n]) == n;
    }
    if n in Kids(t, d) {
      var p :| p in t && p != [] && Parent(p) == d && Last(p) == n;
      assert p == d + [n];
    }
  }

  lemma {:induction false} AncestorIsDir(t: Nodes, a: Path, q: Path)
    requires WellFormed(t) && q in t && a < q
    ensures IsDir(t, a)
    decreases |q|
  {
    if a != Parent(q) {
      AncestorIsDir(t, a, Parent(q));
    }
  }

  lemma LeafIsAlone(t: Nodes, p: Path)
    requires WellFormed(t) && !IsDir(t, p)
    ensures forall q :: q in t && p <= q ==> q == p
  {
    forall q | q in t && p <= q ensures q == p {
      if q != p {
        AncestorIsDir(t, p, q);
      }
    }
  }

  /** Path resolution as the kernel does it, component by component. */
  function Resolve(t: Nodes, p: Path): Result<Entry, Errno> {
    if p == [] then
      if p in t then Success(t[p]) else Failure(ENOENT)
    else
      match Resolve(t, Parent(p))
      case Failure(e) => Failure(e)
      case Success(Dir) => if p in t then Success(t[p]) else Failure(ENOENT)
      case Success(_) => Failure(ENOTDIR)
  }

  /** Some proper ancestor of `p` exists and is not a directory. */
  ghost predicate ThroughLeaf(t: Nodes, p: Path) {
    exists k :: 0 <= k < |p| && p[..k] in t && !t[p[..k]].Dir?
  }

  lemma {:induction false} ResolveMeaning(t: Nodes, p: Path)
    requires WellFormed(t)
    ensures p in t ==> Resolve(t, p) == Success(t[p])
    ensures p !in t ==> Resolve(t, p) == Failure(if ThroughLeaf(t, p) then ENOTDIR else ENOENT)
    ensures p in t ==> !ThroughLeaf(t, p)
    ensures ThroughLeaf(t, p) <==> exists k :: 0 <= k < |p| && p[..k] in t && t[p[..k]] != Dir
  {
    if p != [] {
      var d := Parent(p);
      ResolveMeaning(t, d);
      assert forall k :: 0 <= k < |d| ==> p[..k] == d[..k];
      if p !in t && ThroughLeaf(t, p) {
        var k :| 0 <= k < |p| && p[..k] in t && !t[p[..k]].Dir?;
        if k < |d| {
          assert d[..k] == p[..k];
          assert ThroughLeaf(t, d);
        }
      }
      if ThroughLeaf(t, d) {
        var k :| 0 <= k < |d| && d[..k] in t && !t[d[..k]].Dir?;
        assert p[..k] == d[..k];
        assert ThroughLeaf(t, p);
      }
      if d in t && !t[d].Dir? {
        assert p[..|d|] == d;
        assert ThroughLeaf(t, p);
      }
      if p in t {
        forall k | 0 <= k < |p| && p[..k] in t ensures t[p[..k]].Dir? {
          AncestorIsDir(t, p[..k], p);
        }
      }
    }
  }

  // ---- Sums ----

  ghost function SumOver<K>(m: map<K, nat>, keys: set<K>): nat
    requires keys <= m.Keys
  {
    if keys == {} then 0
    else
      var k :| k in keys;
      m[k] + SumOver(m, keys - {k})
  }

  ghost function Sum<K>(m: map<K, nat>): nat {
    SumOver(m, m.Keys)
  }

  lemma {:induction false} OverRemove<K>(m: map<K, nat>, keys: set<K>, k: K)
    requires keys <= m.Keys && k in keys
    ensures SumOver(m, keys) == m[k] + SumOver(m, keys - {k})
    decreases keys
  {
    var c :| c in keys && SumOver(m, keys) == m[c] + SumOver(m, keys - {c});
    if c != k {
      OverRemove(m, keys - {c}, k);
      OverRemove(m, keys - {k}, c);
      assert keys - {c} - {k} == keys - {k} - {c};
    }
  }

  lemma {:induction false} OverSame<K>(m: map<K, nat>, m': map<K, nat>, keys: set<K>)
    requires keys <= m.Keys && keys <= m'.Keys && forall k :: k in keys ==> m[k] == m'[k]
    ensures SumOver(m, keys) == SumOver(m', keys)
    decreases keys
  {
    if keys != {} {
      var k :| k in keys;
      OverRemove(m, keys, k);
      OverRemove(m', keys, k);
      OverSame(m, m', keys - {k});
    }
  }

  lemma SumRemove<K>(m: map<K, nat>, k: K)
    requires k in m
    ensures Sum(m) == m[k] + Sum(m - {k})
  {
    OverRemove(m, m.Keys, k);
    assert (m - {k}).Keys == m.Keys - {k};
    OverSame(m, m - {k}, m.Keys - {k});
  }

  lemma {:induction false} SumSplit<K>(m: map<K, nat>, a: map<K, nat>, b: map<K, nat>)
    requires a.Keys !! b.Keys && m.Keys == a.Keys + b.Keys
    requires forall k :: k in a ==> m[k] == a[k]
    requires forall k :: k in b ==> m[k] == b[k]
    ensures Sum(m) == Sum(a) + Sum(b)
    decreases a.Keys
  {
    if a.Keys == {} {
      assert a == map[];
      assert m == b;
    } else {
      var k :| k in a.Keys;
      SumRemove(a, k);
      SumRemove(m, k);
      var a', m' := a - {k}, m - {k};
      assert a'.Keys == a.Keys - {k};
      assert m'.Keys == m.Keys - {k};
      SumSplit(m', a', b);
    }
  }

  /** The part of `m` outside `keys`. */
  function Rest<K>(m: map<K, nat>, keys: set<K>): (r: map<K, nat>)
    ensures r.Keys == m.Keys - keys && forall k :: k in r ==> r[k] == m[k]
  {
    m - keys
  }

  lemma SumDominates<K>(a: map<K, nat>, m: map<K, nat>)
    requires a.Keys <= m.Keys && forall k :: k in a ==> a[k] == m[k]
    ensures Sum(a) <= Sum(m)
  {
    var rest := Rest(m, a.Keys);
    assert m.Keys == a.Keys + rest.Keys;
    SumSplit(m, a, rest);
  }

  lemma SumCover<K>(m: map<K, nat>, a: map<K, nat>, b: map<K, nat>)
    requires m.Keys == a.Keys + b.Keys
    requires (forall k :: k in a ==> m[k] == a[k]) && forall k :: k in b ==> m[k] == b[k]
    ensures Sum(a) <= Sum(m) && Sum(b) <= Sum(m) && Sum(m) <= Sum(a) + Sum(b)
  {
    SumDominates(a, m);
    SumDominates(b, m);
    SumAtMost(m, a, b, Rest(m, a.Keys));
  }

  lemma SumAtMost<K>(m: map<K, nat>, a: map<K, nat>, b: map<K, nat>, rest: map<K, nat>)
    requires m.Keys == a.Keys + rest.Keys && a.Keys !! rest.Keys && rest.Keys <= b.Keys
    requires forall k :: k in a ==> m[k] == a[k]
    requires forall k :: k in rest ==> m[k] == rest[k] && b[k] == rest[k]
    ensures Sum(m) <= Sum(a) + Sum(b)
  {
    SumSplit(m, a, rest);
    SumDominates(rest, b);
  }

  lemma SumUpdate<K>(m: map<K, nat>, k: K, v: nat)
    ensures Sum(m[k := v]) == Sum(m) - (if k in m then m[k] else 0) + v
  {
    SumRemove(m[k := v], k);
    if k in m {
      SumRemove(m, k);
      assert m[k := v] - {k} == m - {k};
    } else {
      assert m[k := v] - {k} == m;
    }
  }

  // ---- Bytes on the disk ----

  function Inodes(t: Nodes): set<nat> {
    set p | p in t && t[p].File? :: t[p].ino
  }

  /** The size of every inode that has a name; each inode is listed once. */
  function InodeSizes(t: Nodes, sizes: Sizes): map<nat, nat>
    requires Sized(t, sizes)
  {
    map i | i in Inodes(t) :: sizes[i]
  }

  /** The disk usage: the sizes of the distinct inodes in the sandbox. */
  ghost function Bytes(t: Nodes, sizes: Sizes): nat
    requires Sized(t, sizes)
  {
    Sum(InodeSizes(t, sizes))
  }

  /** No regular file has a second name. */
  ghost predicate NoHardLinks(t: Nodes) {
    forall p, q :: p in t && q in t && t[p].File? && t[q].File? && t[p].ino == t[q].ino ==> p == q
  }

  // ---- Partial removal ----

  /** Some pinned entry lies at or below `q`. */
  ghost predicate Holds(t: Nodes, pins: set<Path>, q: Path) {
    exists u {:trigger u in pins} :: u in t && q <= u && u in pins
  }

  /** What a removal of `p` that cannot touch `pins` leaves of the disk. */
  ghost function Shed(t: Nodes, p: Path, pins: set<Path>): Nodes {
    map q | q in t && (p <= q ==> Holds(t, pins, q)) :: t[q]
  }

  /** No pinned entry lies at or below `p`. */
  ghost predicate Unpinned(t: Nodes, pins: set<Path>, p: Path) {
    forall u {:trigger u in pins} :: u in pins && u in t ==> !(p <= u)
  }

  /**
   The survivors below `p` are the pinned entries and the directories leading to them, and they survive
   every further removal.
   */
  lemma ShedTwice(t: Nodes, p: Path, pins: set<Path>)
    ensures forall q :: q in Shed(t, p, pins) <==> q in t && (p <= q ==> exists u :: u in pins && u in t && q <= u)
    ensures forall q :: q in Shed(t, p, pins) ==> Shed(t, p, pins)[q] == t[q]
    ensures Shed(Shed(t, p, pins), p, pins) == Shed(t, p, pins)
  {
    var s := Shed(t, p, pins);
    forall q | q in s && p <= q ensures Holds(s, pins, q) {
      var u :| u in t && q <= u && u in pins;
      assert u in s;
    }
  }

  // ---- What a removal costs ----

  /** The regular files named in `t` but no longer in `t'`. */
  function Gone(t: Nodes, t': Nodes, sizes: Sizes): map<Path, nat>
    requires Sized(t, sizes)
  {
    map q | q in t && t[q].File? && q !in t' :: sizes[t[q].ino]
  }

  /** The usage after the files in `gone` were charged one by one, stopping at zero. */
  ghost function Spend(usage: int, gone: map<Path, nat>): int {
    if gone == map[] then usage else Max(0, usage - Sum(gone))
  }

  /** `t'` is `t` with some entries taken away. */
  ghost predicate Within(t': Nodes, t: Nodes) {
    forall q {:trigger q in t'} :: q in t' ==> q in t && t'[q] == t[q]
  }

  /** The entries at or below `p` that cannot be removed. */
  function Pinned(t: Nodes, pins: set<Path>, p: Path): set<Path> {
    set q | q in t && p <= q && q in pins
  }

  /** The regular files among `lost`: they are charged although they stay. */
  function Refused(t: Nodes, lost: set<Path>, sizes: Sizes): map<Path, nat>
    requires Sized(t, sizes)
  {
    map q | q in t && q in lost && t[q].File? :: sizes[t[q].ino]
  }

  /** The bytes charged for entries that stay, each counted once. */
  ghost function Lost(t: Nodes, lost: set<Path>, sizes: Sizes): nat
    requires Sized(t, sizes)
  {
    Sum(Refused(t, lost, sizes))
  }

  /**
   The charge for going from `t` to `t'` when the removals of `lost` were refused, each at least once.
   It is exact when no refused file has a size, and otherwise covers every refused file as well.
   */
  ghost predicate Charged(usage: int, t: Nodes, usage': int, t': Nodes, sizes: Sizes, lost: set<Path>)
    requires Sized(t, sizes)
  {
    Bill(usage, usage', Gone(t, t', sizes).Keys == {}, Sum(Gone(t, t', sizes)), lost == {}, Lost(t, lost, sizes))
  }

  /** The counter after `gone` bytes of removed files and at least `lost` bytes of refused ones were charged. */
  ghost predicate Bill(usage: int, usage': int, nothingGone: bool, gone: nat, noneLost: bool, lost: nat) {
    && (lost == 0 && (usage >= 0 || noneLost) ==> usage' == if nothingGone then usage else Max(0, usage - gone))
    && (usage >= 0 ==> 0 <= usage' <= Max(0, usage - gone - lost))
    && -1 <= usage' <= Max(0, usage)
  }

  lemma BillTwice(u: int, u1: int, u2: int, n1: bool, g1: nat, n2: bool, g2: nat, n: bool, g: nat,
                  e1: bool, l1: nat, e2: bool, l2: nat, e: bool, l: nat)
    requires Bill(u, u1, n1, g1, e1, l1) && Bill(u1, u2, n2, g2, e2, l2)
    requires g == g1 + g2 && n == (n1 && n2) && e == (e1 && e2) && l1 <= l && l2 <= l && l <= l1 + l2
    requires (n1 ==> g1 == 0) && (n2 ==> g2 == 0)
    ensures Bill(u, u2, n, g, e, l)
  {
  }

  /** No regular file among `lost` has a byte. */
  ghost predicate AllEmpty(t: Nodes, lost: set<Path>, sizes: Sizes)
    requires Sized(t, sizes)
  {
    forall q :: q in lost && q in t && t[q].File? ==> sizes[t[q].ino] == 0
  }

  /** A delete charges exactly what it removed unless a refused file has a size and something is left on the counter. */
  lemma ExactCharge(usage: int, t: Nodes, usage': int, t': Nodes, sizes: Sizes, lost: set<Path>)
    requires Sized(t, sizes) && usage >= 0 && Charged(usage, t, usage', t', sizes, lost)
    ensures usage' == Spend(usage, Gone(t, t', sizes)) <==>
              Spend(usage, Gone(t, t', sizes)) == 0 || AllEmpty(t, lost, sizes)
  {
    LostMeaning(t, lost, sizes);
    SumZero(Gone(t, t', sizes));
    NoKeys(Gone(t, t', sizes));
  }

  lemma LostMeaning(t: Nodes, lost: set<Path>, sizes: Sizes)
    requires Sized(t, sizes)
    ensures Lost(t, lost, sizes) == 0 <==> AllEmpty(t, lost, sizes)
  {
    SumZero(Refused(t, lost, sizes));
    assert forall q :: q in lost && q in t && t[q].File? ==> q in Refused(t, lost, sizes);
  }

  lemma {:induction false} SumZero<K>(m: map<K, nat>)
    ensures Sum(m) == 0 <==> forall k :: k in m ==> m[k] == 0
    decreases |m|
  {
    if m != map[] {
      var k :| k in m;
      SumRemove(m, k);
      SumZero(m - {k});
      assert forall j :: j in m ==> j == k || j in m - {k};
    }
  }

  /** Refusals that add up: those of two steps, the second on what the first one left. */
  lemma LostUnion(t: Nodes, t1: Nodes, a: set<Path>, b: set<Path>, sizes: Sizes)
    requires Sized(t, sizes) && Within(t1, t) && b <= t1.Keys
    ensures Sized(t1, sizes)
    ensures Lost(t, a, sizes) <= Lost(t, a + b, sizes) && Lost(t1, b, sizes) <= Lost(t, a + b, sizes)
    ensures Lost(t, a + b, sizes) <= Lost(t, a, sizes) + Lost(t1, b, sizes)
  {
    assert Refused(t1, b, sizes) == Refused(t, b, sizes);
    SumCover(Refused(t, a + b, sizes), Refused(t, a, sizes), Refused(t, b, sizes));
  }

  /** Only the regular files among the refused entries matter. */
  lemma ChargedSame(u: int, t: Nodes, u': int, t': Nodes, sizes: Sizes, a: set<Path>, b: set<Path>)
    requires Sized(t, sizes) && Charged(u, t, u', t', sizes, a)
    requires a <= b && forall q :: q in b && q !in a ==> q !in t || !t[q].File?
    ensures Charged(u, t, u', t', sizes, b)
  {
    assert Refused(t, a, sizes) == Refused(t, b, sizes);
  }

  lemma GoneParts(t: Nodes, t1: Nodes, t2: Nodes, sizes: Sizes)
    requires Sized(t, sizes) && Within(t1, t) && Within(t2, t1)
    ensures Sized(t1, sizes)
    ensures var a, b, c := Gone(t, t1, sizes), Gone(t1, t2, sizes), Gone(t, t2, sizes);
            && c.Keys == a.Keys + b.Keys && a.Keys !! b.Keys
            && (forall q :: q in a ==> c[q] == a[q]) && (forall q :: q in b ==> c[q] == b[q])
  {
    var a, b, c := Gone(t, t1, sizes), Gone(t1, t2, sizes), Gone(t, t2, sizes);
    forall q ensures q in c <==> q in a || q in b {
      assert q in t1 ==> q in t && t1[q] == t[q];
      assert q in t2 ==> q in t1;
    }
    assert forall q :: q in b ==> q in t1;
  }

  lemma GoneSplits(t: Nodes, t1: Nodes, t2: Nodes, sizes: Sizes)
    requires Sized(t, sizes) && Within(t1, t) && Within(t2, t1)
    ensures Sized(t1, sizes)
    ensures Sum(Gone(t, t2, sizes)) == Sum(Gone(t, t1, sizes)) + Sum(Gone(t1, t2, sizes))
    ensures Gone(t, t2, sizes).Keys == {} <==> Gone(t, t1, sizes).Keys == {} && Gone(t1, t2, sizes).Keys == {}
  {
    GoneParts(t, t1, t2, sizes);
    SumParts(Gone(t, t2, sizes), Gone(t, t1, sizes), Gone(t1, t2, sizes));
  }

  lemma SumParts<K>(m: map<K, nat>, a: map<K, nat>, b: map<K, nat>)
    requires a.Keys !! b.Keys && m.Keys == a.Keys + b.Keys
    requires (forall k :: k in a ==> m[k] == a[k]) && forall k :: k in b ==> m[k] == b[k]
    ensures Sum(m) == Sum(a) + Sum(b) && (m.Keys == {} <==> a.Keys == {} && b.Keys == {})
  {
    SumSplit(m, a, b);
  }

  lemma SumOfNone<K>(m: map<K, nat>)
    ensures m.Keys == {} ==> Sum(m) == 0
  {
  }

  lemma NoKeys<K, V>(m: map<K, V>)
    ensures m == map[] <==> m.Keys == {}
  {
  }

  lemma ChargedTwice(u: int, t: Nodes, u1: int, t1: Nodes, u2: int, t2: Nodes, sizes: Sizes, a: set<Path>, b: set<Path>)
    requires Sized(t, sizes) && Within(t1, t) && Within(t2, t1) && b <= t1.Keys
    requires Charged(u, t, u1, t1, sizes, a)
    requires Sized(t1, sizes) && Charged(u1, t1, u2, t2, sizes, b)
    ensures Charged(u, t, u2, t2, sizes, a + b)
  {
    var g1, g2, g := Gone(t, t1, sizes), Gone(t1, t2, sizes), Gone(t, t2, sizes);
    GoneSplits(t, t1, t2, sizes);
    LostUnion(t, t1, a, b, sizes);
    SumOfNone(g1);
    SumOfNone(g2);
    BillTwice(u, u1, u2, g1.Keys == {}, Sum(g1), g2.Keys == {}, Sum(g2), g.Keys == {}, Sum(g),
              a == {}, Lost(t, a, sizes), b == {}, Lost(t1, b, sizes), a + b == {}, Lost(t, a + b, sizes));
  }

  lemma ChargedMore(u: int, t: Nodes, u1: int, t1: Nodes, u2: int, t2: Nodes, sizes: Sizes, a: set<Path>)
    requires Sized(t, sizes) && Within(t1, t) && Within(t2, t1)
    requires Charged(u, t, u1, t1, sizes, a)
    requires Sized(t1, sizes) && Charged(u1, t1, u2, t2, sizes, {})
    ensures Charged(u, t, u2, t2, sizes, a)
  {
    var none: set<Path> := {};
    ChargedTwice(u, t, u1, t1, u2, t2, sizes, a, none);
    assert a + none == a;
  }
}
