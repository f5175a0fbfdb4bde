/**
 Walking a directory tree (`WalkDirat`, walk_unix.go) and summing it up (`DirectorySize`, disk_space.go).

 The callback may depend on everything it has seen: it is a function of the entries visited so far, the
 current one last.  `listing` is the order in which the kernel lists each directory.
 */
module Walk {
  import opened Prelude
  import opened Paths
  import opened Tree
  import opened Removal

  datatype Verdict = Continue | SkipDir | SkipAll | Fail(error: Errno)

  type Listing = Path -> seq<Name>
  type Callback = seq<Path> -> Verdict

  ghost predicate Distinct<T>(s: seq<T>) {
    forall i, j :: 0 <= i < j < |s| ==> s[i] != s[j]
  }

  /** Every directory is listed completely and without repetition. */
  ghost predicate Listed(t: Nodes, listing: Listing) {
    forall d :: IsDir(t, d) ==> Distinct(listing(d)) && forall n :: n in listing(d) <==> n in Kids(t, d)
  }

  ghost predicate AreKids(t: Nodes, d: Path, names: seq<Name>) {
    forall n :: n in names ==> d + [n] in t
  }

  lemma ChildIsSmaller(t: Nodes, d: Path, n: Name)
    requires d in t
    ensures Below(t, d + [n]) < Below(t, d)
  {
    SubtreeShrinks(t, t, d, d + [n]);
  }

  lemma ListedAreKids(t: Nodes, listing: Listing, d: Path)
    requires Listed(t, listing) && IsDir(t, d)
    ensures AreKids(t, d, listing(d))
  {
    forall n | n in listing(d) ensures d + [n] in t {
      KidsAre(t, d, n);
    }
  }

  // ---- The documented order ----

  ghost function Preorder(t: Nodes, listing: Listing, p: Path): seq<Path>
    requires Listed(t, listing) && p in t
    decreases Below(t, p), 1, 0
  {
    if t[p].Dir? then
      ListedAreKids(t, listing, p);
      [p] + PreorderOf(t, listing, p, listing(p))
    else [p]
  }

  /** The subtrees of `names` in `d`, one after the other. */
  ghost function PreorderOf(t: Nodes, listing: Listing, d: Path, names: seq<Name>): seq<Path>
    requires Listed(t, listing) && d in t && AreKids(t, d, names)
    decreases Below(t, d), 0, |names|
  {
    if names == [] then []
    else
      ChildIsSmaller(t, d, names[0]);
      Preorder(t, listing, d + [names[0]]) + PreorderOf(t, listing, d, names[1..])
  }

  /** What the answer `v` at the visited entry `p` takes out of the rest of the walk. */
  ghost predicate Cuts(t: Nodes, p: Path, v: Verdict, q: Path) {
    match v
    case Continue => false
    case SkipDir => if IsDir(t, p) then p < q else p != [] && Parent(p) < q
    case SkipAll => true
    case Fail(_) => true
  }

  ghost predicate Blocked(t: Nodes, fn: Callback, visited: seq<Path>, q: Path) {
    exists i :: 0 <= i < |visited| && Cuts(t, visited[i], fn(visited[..i + 1]), q)
  }

  /** The walk as documented: the entries in order, without those an earlier answer took out. */
  ghost function Keep(t: Nodes, fn: Callback, order: seq<Path>, visited: seq<Path>): seq<Path>
    decreases |order|
  {
    if order == [] then visited
    else Keep(t, fn, order[1..], if Blocked(t, fn, visited, order[0]) then visited else visited + [order[0]])
  }

  lemma {:induction false} KeepConcat(t: Nodes, fn: Callback, a: seq<Path>, b: seq<Path>, visited: seq<Path>)
    ensures Keep(t, fn, a + b, visited) == Keep(t, fn, b, Keep(t, fn, a, visited))
    decreases |a|
  {
    if a == [] {
      assert a + b == b;
    } else {
      assert (a + b)[1..] == a[1..] + b;
      KeepConcat(t, fn, a[1..], b, if Blocked(t, fn, visited, a[0]) then visited else visited + [a[0]]);
    }
  }

  lemma {:induction false} KeepNone(t: Nodes, fn: Callback, order: seq<Path>, visited: seq<Path>)
    requires forall q :: q in order ==> Blocked(t, fn, visited, q)
    ensures Keep(t, fn, order, visited) == visited
    decreases |order|
  {
    if order != [] {
      KeepNone(t, fn, order[1..], visited);
    }
  }

  lemma {:induction false} KeepAll(t: Nodes, fn: Callback, order: seq<Path>, visited: seq<Path>)
    requires forall s :: fn(s) == Continue
    ensures Keep(t, fn, order, visited) == visited + order
    decreases |order|
  {
    if order != [] {
      KeepAll(t, fn, order[1..], visited + [order[0]]);
    }
  }

  lemma BlockedStep(t: Nodes, fn: Callback, visited: seq<Path>, p: Path, q: Path)
    ensures Blocked(t, fn, visited + [p], q) <==> Blocked(t, fn, visited, q) || Cuts(t, p, fn(visited + [p]), q)
  {
    var w := visited + [p];
    assert w[..|w|] == w;
    assert forall i {:trigger visited[i]} :: 0 <= i < |visited| ==> w[..i + 1] == visited[..i + 1];
    if Blocked(t, fn, visited, q) {
      var i :| 0 <= i < |visited| && Cuts(t, visited[i], fn(visited[..i + 1]), q);
      assert Cuts(t, w[i], fn(w[..i + 1]), q);
    }
    if Cuts(t, p, fn(w), q) {
      assert Cuts(t, w[|visited|], fn(w[..|visited| + 1]), q);
    }
  }

  // ---- Preorder ----

  /** No entry comes before an ancestor of it, nor twice. */
  ghost predicate AncestorsFirst(order: seq<Path>) {
    forall i, j :: 0 <= i < j < |order| ==> !(order[j] <= order[i])
  }

  lemma FirstConcat(a: seq<Path>, b: seq<Path>)
    requires AncestorsFirst(a) && AncestorsFirst(b)
    requires forall x, y :: x in a && y in b ==> !(y <= x)
    ensures AncestorsFirst(a + b)
  {
    var s := a + b;
    forall i, j | 0 <= i < j < |s| ensures !(s[j] <= s[i]) {
      if i < |a| <= j {
        assert s[i] in a && s[j] in b;
      }
    }
  }

  /** The order lists everything at or below `p` once, directories before what they hold. */
  lemma {:induction false} PreorderIsBelow(t: Nodes, listing: Listing, p: Path)
    requires WellFormed(t) && Listed(t, listing) && p in t
    ensures forall q :: q in Preorder(t, listing, p) <==> q in t && p <= q
    ensures AncestorsFirst(Preorder(t, listing, p))
    decreases Below(t, p), 1, 0
  {
    if t[p].Dir? {
      var names := listing(p);
      ListedAreKids(t, listing, p);
      PreorderOfIsBelow(t, listing, p, names);
      HeadFirst(t, listing, p, PreorderOf(t, listing, p, names));
    } else {
      LeafIsAlone(t, p);
    }
  }

  lemma HeadFirst(t: Nodes, listing: Listing, p: Path, order: seq<Path>)
    requires WellFormed(t) && Listed(t, listing) && IsDir(t, p) && AncestorsFirst(order)
    requires forall q :: q in order <==> q in t && p < q && q[|p|] in listing(p)
    ensures AncestorsFirst([p] + order)
    ensures forall q :: q in [p] + order <==> q in t && p <= q
  {
    ListingCovers(t, listing, p);
    FirstConcat([p], order);
    forall q ensures q in [p] + order <==> q in t && p <= q {
      assert p <= q <==> p == q || p < q;
    }
  }

  lemma ListingCovers(t: Nodes, listing: Listing, d: Path)
    requires WellFormed(t) && Listed(t, listing) && IsDir(t, d)
    ensures forall q :: q in t && d < q ==> q[|d|] in listing(d)
  {
    forall q | q in t && d < q ensures q[|d|] in listing(d) {
      NameBelow(t, d, q);
    }
  }

  lemma {:induction false} PreorderOfIsBelow(t: Nodes, listing: Listing, d: Path, names: seq<Name>)
    requires WellFormed(t) && Listed(t, listing) && d in t && AreKids(t, d, names) && Distinct(names)
    ensures forall q :: q in PreorderOf(t, listing, d, names) <==> q in t && d < q && q[|d|] in names
    ensures AncestorsFirst(PreorderOf(t, listing, d, names))
    decreases Below(t, d), 0, |names|
  {
    if names != [] {
      var c := d + [names[0]];
      ChildIsSmaller(t, d, names[0]);
      PreorderIsBelow(t, listing, c);
      PreorderOfIsBelow(t, listing, d, names[1..]);
      FirstName(t, d, names, Preorder(t, listing, c), PreorderOf(t, listing, d, names[1..]));
    }
  }

  /** The subtree of the first name, and then those of the others. */
  lemma FirstName(t: Nodes, d: Path, names: seq<Name>, a: seq<Path>, b: seq<Path>)
    requires names != [] && Distinct(names) && AncestorsFirst(a) && AncestorsFirst(b)
    requires forall q :: q in a <==> q in t && d + [names[0]] <= q
    requires forall q :: q in b <==> q in t && d < q && q[|d|] in names[1..]
    ensures forall q :: q in a + b <==> q in t && d < q && q[|d|] in names
    ensures AncestorsFirst(a + b)
  {
    assert forall q :: d < q && q[|d|] == names[0] <==> d + [names[0]] <= q;
    assert names[0] !in names[1..];
    FirstConcat(a, b);
  }

  // ---- The walk ----

  /** Nothing at or below `p` is taken out so far. */
  ghost predicate Open(t: Nodes, fn: Callback, visited: seq<Path>, p: Path) {
    forall q :: p <= q ==> !Blocked(t, fn, visited, q)
  }

  /** What a walk of the subtree at `p` that ended with `v` takes out elsewhere. */
  ghost predicate TakesOut(t: Nodes, fn: Callback, was: seq<Path>, visited: seq<Path>, p: Path, v: Verdict) {
    match v
    case Continue => forall q :: !(p <= q) ==> (Blocked(t, fn, visited, q) <==> Blocked(t, fn, was, q))
    case SkipDir => !IsDir(t, p) &&
        forall q :: Blocked(t, fn, visited, q) <==> Blocked(t, fn, was, q) || (p != [] && Parent(p) < q)
    case _ => forall q :: Blocked(t, fn, visited, q)
  }

  /**
   `walkDir`.  `visited` lists the entries the callback has been called with; the walk appends exactly
   the entries at or below `p`, in the documented order, that no answer took out.
   */
  method WalkDir(t: Nodes, listing: Listing, fn: Callback, p: Path, visited: seq<Path>)
    returns (err: Verdict, visited': seq<Path>)
    requires WellFormed(t) && Listed(t, listing) && p in t && Open(t, fn, visited, p)
    ensures visited' == Keep(t, fn, Preorder(t, listing, p), visited)
    ensures TakesOut(t, fn, visited, visited', p, err)
    ensures visited' != [] && if fn(visited').Fail? then err == fn(visited') else !err.Fail?
    decreases Below(t, p), 1
  {
    visited' := visited + [p];
    err := fn(visited');
    Visit(t, fn, visited, p);
    if err != Continue || !t[p].Dir? {
      SubtreeIsCut(t, listing, fn, visited, p);
      if err == SkipDir && t[p].Dir? {
        err := Continue;
      }
      return;
    }
    var names := listing(p);
    ListedAreKids(t, listing, p);
    err, visited' := WalkChildren(t, listing, fn, p, names, visited');
  }

  /** The loop of `walkDir` over the entries of a directory that was just visited. */
  method WalkChildren(t: Nodes, listing: Listing, fn: Callback, p: Path, names: seq<Name>, visited: seq<Path>)
    returns (err: Verdict, visited': seq<Path>)
    requires WellFormed(t) && Listed(t, listing) && IsDir(t, p) && Open(t, fn, visited, p)
    requires AreKids(t, p, names) && Distinct(names)
    requires visited != [] && !fn(visited).Fail?
    ensures visited' == Keep(t, fn, PreorderOf(t, listing, p, names), visited)
    ensures TakesOut(t, fn, visited, visited', p, err)
    ensures visited' != [] && if fn(visited').Fail? then err == fn(visited') else !err.Fail?
    decreases Below(t, p), 0
  {
    visited', err := visited, Continue;
    ghost var order := PreorderOf(t, listing, p, names);
    for i := 0 to |names|
      invariant err == Continue
      invariant Keep(t, fn, PreorderOf(t, listing, p, names[i..]), visited') == Keep(t, fn, order, visited)
      invariant ToCome(t, fn, visited', p, names, i)
      invariant TakesOut(t, fn, visited, visited', p, Continue)
      invariant visited' != [] && !fn(visited').Fail?
    {
      ghost var was := visited';
      var c := p + [names[i]];
      ChildIsSmaller(t, p, names[i]);
      err, visited' := WalkDir(t, listing, fn, c, visited');
      OneChild(t, listing, fn, p, names, i, was);
      if err != Continue {
        RestIsCut(t, listing, fn, was, visited', p, c, names[i + 1..], err);
        if err == SkipDir {
          TakenFromParent(t, fn, visited, was, visited', p, c);
          err := Continue;
        }
        return;
      }
      StillOpen(t, fn, was, visited', p, names, i);
      TakenTwice(t, fn, visited, was, visited', p, c);
    }
  }

  /** Nothing at or below the names from `i` on is taken out so far. */
  ghost predicate ToCome(t: Nodes, fn: Callback, visited: seq<Path>, d: Path, names: seq<Name>, i: nat) {
    forall j :: i <= j < |names| ==> Open(t, fn, visited, d + [names[j]])
  }

  lemma TakenTwice(t: Nodes, fn: Callback, a: seq<Path>, b: seq<Path>, c: seq<Path>, d: Path, p: Path)
    requires TakesOut(t, fn, a, b, d, Continue) && TakesOut(t, fn, b, c, p, Continue) && d <= p
    ensures TakesOut(t, fn, a, c, d, Continue)
  {
  }

  lemma TakenFromParent(t: Nodes, fn: Callback, a: seq<Path>, b: seq<Path>, c: seq<Path>, d: Path, p: Path)
    requires TakesOut(t, fn, a, b, d, Continue) && TakesOut(t, fn, b, c, p, SkipDir) && p != [] && Parent(p) == d
    ensures TakesOut(t, fn, a, c, d, Continue)
  {
  }

  lemma OneChild(t: Nodes, listing: Listing, fn: Callback, d: Path, names: seq<Name>, i: nat, was: seq<Path>)
    requires Listed(t, listing) && d in t && AreKids(t, d, names) && i < |names| && d + [names[i]] in t
    ensures Keep(t, fn, PreorderOf(t, listing, d, names[i..]), was) ==
              Keep(t, fn, PreorderOf(t, listing, d, names[i + 1..]), Keep(t, fn, Preorder(t, listing, d + [names[i]]), was))
  {
    assert names[i..][1..] == names[i + 1..];
    KeepConcat(t, fn, Preorder(t, listing, d + [names[i]]), PreorderOf(t, listing, d, names[i + 1..]), was);
  }

  lemma Visit(t: Nodes, fn: Callback, visited: seq<Path>, p: Path)
    requires Open(t, fn, visited, p)
    ensures forall q :: Blocked(t, fn, visited + [p], q) <==> Blocked(t, fn, visited, q) || Cuts(t, p, fn(visited + [p]), q)
    ensures !Blocked(t, fn, visited, p)
  {
    forall q ensures Blocked(t, fn, visited + [p], q) <==> Blocked(t, fn, visited, q) || Cuts(t, p, fn(visited + [p]), q) {
      BlockedStep(t, fn, visited, p, q);
    }
    assert p <= p;
  }

  /** An answer other than Continue ends the subtree at `p` after `p` itself. */
  lemma SubtreeIsCut(t: Nodes, listing: Listing, fn: Callback, visited: seq<Path>, p: Path)
    requires WellFormed(t) && Listed(t, listing) && p in t && Open(t, fn, visited, p)
    requires fn(visited + [p]) != Continue || !t[p].Dir?
    ensures Keep(t, fn, Preorder(t, listing, p), visited) == visited + [p]
    ensures var err := fn(visited + [p]);
            TakesOut(t, fn, visited, visited + [p], p, if err == SkipDir && t[p].Dir? then Continue else err)
  {
    Visit(t, fn, visited, p);
    if t[p].Dir? {
      var names := listing(p);
      ListedAreKids(t, listing, p);
      PreorderOfIsBelow(t, listing, p, names);
      KeepNone(t, fn, PreorderOf(t, listing, p, names), visited + [p]);
    }
  }

  /** After the child `c` of `d` ended with anything but Continue, the siblings still to come are out. */
  lemma RestIsCut(t: Nodes, listing: Listing, fn: Callback, was: seq<Path>, visited: seq<Path>, d: Path, c: Path,
                  rest: seq<Name>, err: Verdict)
    requires WellFormed(t) && Listed(t, listing) && d in t && AreKids(t, d, rest) && Distinct(rest)
    requires c != [] && Parent(c) == d && err != Continue
    requires TakesOut(t, fn, was, visited, c, err)
    ensures Keep(t, fn, PreorderOf(t, listing, d, rest), visited) == visited
  {
    PreorderOfIsBelow(t, listing, d, rest);
    KeepNone(t, fn, PreorderOf(t, listing, d, rest), visited);
  }

  lemma StillOpen(t: Nodes, fn: Callback, was: seq<Path>, visited: seq<Path>, d: Path, names: seq<Name>, i: nat)
    requires i < |names| && Distinct(names) && TakesOut(t, fn, was, visited, d + [names[i]], Continue)
    requires ToCome(t, fn, was, d, names, i)
    ensures ToCome(t, fn, visited, d, names, i + 1)
  {
    forall j, q | i < j < |names| && d + [names[j]] <= q ensures !Blocked(t, fn, visited, q) {
      assert (d + [names[j]])[|d|] != (d + [names[i]])[|d|];
    }
  }

  /**
   `WalkDirat`: a missing root is reported to the callback as well; SkipDir and SkipAll are not errors.
   */
  method WalkDirat(t: Nodes, listing: Listing, fn: Callback, onError: Errno -> Verdict, p: Path)
    returns (err: Option<Errno>, visited: seq<Path>)
    requires WellFormed(t) && Listed(t, listing)
    ensures p in t ==> visited == Keep(t, fn, Preorder(t, listing, p), [])
    ensures p in t ==> (err != None <==> fn(visited).Fail?)
    ensures p !in t ==> visited == [] && (err != None <==> onError(Resolve(t, p).error).Fail?)
  {
    var verdict;
    ResolveMeaning(t, p);
    match Resolve(t, p) {
      case Failure(e) =>
        verdict, visited := onError(e), [];
      case Success(_) =>
        verdict, visited := WalkDir(t, listing, fn, p, []);
    }
    err := match verdict
      case Fail(e) => Some(e)
      case _ => None;
  }

  /**
   An entry is visited exactly when none of the answers given before it took it out: SkipDir at a
   directory takes out what is below it, SkipDir elsewhere the rest of the parent directory, SkipAll
   and errors everything.
   */
  lemma {:induction false} VisitedMeaning(t: Nodes, listing: Listing, fn: Callback, p: Path, k: nat)
    requires WellFormed(t) && Listed(t, listing) && p in t && k < |Preorder(t, listing, p)|
    ensures var order := Preorder(t, listing, p);
            order[k] in Keep(t, fn, order, []) <==> !Blocked(t, fn, Keep(t, fn, order[..k], []), order[k])
  {
    PreorderIsBelow(t, listing, p);
    OnceOnly(Preorder(t, listing, p), k);
    KeepAt(t, fn, Preorder(t, listing, p), k);
  }

  /** What each answer takes out of the rest of the walk. */
  lemma CutsMeaning(t: Nodes, p: Path, q: Path)
    ensures !Cuts(t, p, Continue, q) && Cuts(t, p, SkipAll, q) && forall e :: Cuts(t, p, Fail(e), q)
    ensures IsDir(t, p) ==> (Cuts(t, p, SkipDir, q) <==> |q| > |p| && q[..|p|] == p)
    ensures !IsDir(t, p) && p != [] ==> (Cuts(t, p, SkipDir, q) <==> |q| >= |p| && q[..|p| - 1] == p[..|p| - 1])
  {
    if p != [] && |q| >= |p| {
      assert Parent(p) < q <==> q[..|p| - 1] == Parent(p);
    }
  }

  // ---- The order among siblings ----

  ghost predicate Before(order: seq<Path>, a: Path, b: Path) {
    exists k, l :: 0 <= k < l < |order| && order[k] == a && order[l] == b
  }

  lemma BeforeIn(x: seq<Path>, order: seq<Path>, a: Path, b: Path)
    requires Before(order, a, b)
    ensures Before(x + order, a, b) && Before(order + x, a, b)
  {
    var k, l :| 0 <= k < l < |order| && order[k] == a && order[l] == b;
    assert (x + order)[|x| + k] == a && (x + order)[|x| + l] == b;
    assert (order + x)[k] == a && (order + x)[l] == b;
  }

  lemma BeforeAcross(x: seq<Path>, y: seq<Path>, a: Path, b: Path)
    requires a in x && b in y
    ensures Before(x + y, a, b)
  {
    var k :| 0 <= k < |x| && x[k] == a;
    var l :| 0 <= l < |y| && y[l] == b;
    assert (x + y)[k] == a && (x + y)[|x| + l] == b;
  }

  lemma {:induction false} SiblingsInOrder(t: Nodes, listing: Listing, d: Path, names: seq<Name>, i: nat, j: nat, a: Path, b: Path)
    requires WellFormed(t) && Listed(t, listing) && d in t && AreKids(t, d, names) && Distinct(names)
    requires i < j < |names| && a in t && b in t && d + [names[i]] <= a && d + [names[j]] <= b
    ensures Before(PreorderOf(t, listing, d, names), a, b)
    decreases |names|
  {
    var c := d + [names[0]];
    ChildIsSmaller(t, d, names[0]);
    var head, tail := Preorder(t, listing, c), PreorderOf(t, listing, d, names[1..]);
    if i == 0 {
      PreorderIsBelow(t, listing, c);
      PreorderOfIsBelow(t, listing, d, names[1..]);
      assert names[1..][j - 1] == names[j] && b[|d|] == names[j];
      BeforeAcross(head, tail, a, b);
    } else {
      SiblingsInOrder(t, listing, d, names[1..], i - 1, j - 1, a, b);
      BeforeIn(head, tail, a, b);
    }
  }

  lemma {:induction false} InChild(t: Nodes, listing: Listing, d: Path, names: seq<Name>, i: nat, a: Path, b: Path)
    requires Listed(t, listing) && d in t && AreKids(t, d, names) && i < |names| && d + [names[i]] in t
    requires Before(Preorder(t, listing, d + [names[i]]), a, b)
    ensures Before(PreorderOf(t, listing, d, names), a, b)
    decreases |names|
  {
    ChildIsSmaller(t, d, names[0]);
    var head, tail := Preorder(t, listing, d + [names[0]]), PreorderOf(t, listing, d, names[1..]);
    if i == 0 {
      BeforeIn(tail, head, a, b);
    } else {
      assert names[1..][i - 1] == names[i];
      InChild(t, listing, d, names[1..], i - 1, a, b);
      BeforeIn(head, tail, a, b);
    }
  }

  lemma NextComponent(p: Path, d: Path)
    requires p < d
    ensures p + [d[|p|]] <= d && d[..|p| + 1] == p + [d[|p|]]
  {
  }

  /** The entry of `p` on the way to `d`. */
  lemma OnTheWay(t: Nodes, listing: Listing, p: Path, d: Path) returns (k: nat)
    requires WellFormed(t) && Listed(t, listing) && IsDir(t, d) && p in t && p < d
    ensures IsDir(t, p) && AreKids(t, p, listing(p))
    ensures k < |listing(p)| && p + [listing(p)[k]] <= d && p + [listing(p)[k]] in t
    ensures Below(t, p + [listing(p)[k]]) < Below(t, p)
  {
    AncestorIsDir(t, p, d);
    ListedAreKids(t, listing, p);
    NextComponent(p, d);
    var n := d[|p|];
    assert n in listing(p) by {
      ListingCovers(t, listing, p);
    }
    k :| 0 <= k < |listing(p)| && listing(p)[k] == n;
    assert p + [n] in t;
    ChildIsSmaller(t, p, n);
  }

  lemma BelowHead(t: Nodes, listing: Listing, p: Path, a: Path, b: Path)
    requires Listed(t, listing) && IsDir(t, p) && AreKids(t, p, listing(p))
    requires Before(PreorderOf(t, listing, p, listing(p)), a, b)
    ensures Before(Preorder(t, listing, p), a, b)
  {
    BeforeIn([p], PreorderOf(t, listing, p, listing(p)), a, b);
  }

  /** What lies in a directory comes in the order in which the directory is listed, subtree after subtree. */
  lemma {:induction false} OrderFollowsListing(t: Nodes, listing: Listing, p: Path, d: Path, i: nat, j: nat, a: Path, b: Path)
    requires WellFormed(t) && Listed(t, listing) && IsDir(t, d) && p <= d && p in t
    requires i < j < |listing(d)| && a in t && b in t && d + [listing(d)[i]] <= a && d + [listing(d)[j]] <= b
    ensures Before(Preorder(t, listing, p), a, b)
    decreases Below(t, p)
  {
    if p == d {
      ListedAreKids(t, listing, d);
      SiblingsInOrder(t, listing, d, listing(d), i, j, a, b);
    } else {
      var k := OnTheWay(t, listing, p, d);
      OrderFollowsListing(t, listing, p + [listing(p)[k]], d, i, j, a, b);
      InChild(t, listing, p, listing(p), k, a, b);
    }
    BelowHead(t, listing, p, a, b);
  }

  lemma OnceOnly(order: seq<Path>, k: nat)
    requires AncestorsFirst(order) && k < |order|
    ensures order[k] !in order[..k] && order[k] !in order[k + 1..]
  {
    assert order[k] <= order[k];
    forall i | 0 <= i < |order| && i != k ensures order[i] != order[k] {
      assert i < k ==> !(order[k] <= order[i]);
      assert k < i ==> !(order[i] <= order[k]);
    }
  }

  lemma KeepAt(t: Nodes, fn: Callback, order: seq<Path>, k: nat)
    requires k < |order| && order[k] !in order[..k] && order[k] !in order[k + 1..]
    ensures order[k] in Keep(t, fn, order, []) <==> !Blocked(t, fn, Keep(t, fn, order[..k], []), order[k])
  {
    var before, rest := Keep(t, fn, order[..k], []), order[k..];
    KeepIsFrom(t, fn, order[..k], []);
    assert order[k] !in before;
    var after := if Blocked(t, fn, before, order[k]) then before else before + [order[k]];
    assert Keep(t, fn, order, []) == Keep(t, fn, order[k + 1..], after) by {
      assert order == order[..k] + rest;
      KeepConcat(t, fn, order[..k], rest, []);
      assert rest[1..] == order[k + 1..];
    }
    KeepIsFrom(t, fn, order[k + 1..], after);
    if !Blocked(t, fn, before, order[k]) {
      assert after[|before|] == order[k];
    }
  }

  lemma {:induction false} KeepIsFrom(t: Nodes, fn: Callback, order: seq<Path>, visited: seq<Path>)
    ensures visited <= Keep(t, fn, order, visited)
    ensures forall q :: q in Keep(t, fn, order, visited) ==> q in visited || q in order
    decreases |order|
  {
    if order != [] {
      KeepIsFrom(t, fn, order[1..], if Blocked(t, fn, visited, order[0]) then visited else visited + [order[0]]);
    }
  }
}
