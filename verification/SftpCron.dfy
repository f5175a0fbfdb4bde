/**
 Merging SFTP activity before it is sent to the Panel (sftp_cron.go).

 Rows are read page by page, grouped by user, server, address, event and minute, sent, and deleted.  The
 order in which the database returns them does not change during one run.
 */
module SftpCron {
  import opened Prelude

  datatype Record = Record(id: int, user: string, server: string, ip: string, event: string, time: int, files: Option<seq<string>>)

  datatype Key = Key(user: string, server: string, ip: string, event: string, minute: int)

  /** The merged entry: the first record of its key, with the earliest time and all the files. */
  datatype Group = Group(first: Record, time: int, files: seq<string>)

  const DELETE_BATCH: nat := 32000

  function KeyOf(r: Record): Key {
    Key(r.user, r.server, r.ip, r.event, r.time / 60)
  }

  /** The files of a record; metadata that is missing or of another kind counts as none. */
  function Files(r: Record): seq<string> {
    if r.files.Some? then r.files.value else []
  }

  // ---- What the grouping means ----

  /** The keys in the order in which they first appear. */
  function Keys(rs: seq<Record>): seq<Key> {
    if rs == [] then []
    else
      var before := Keys(rs[..|rs| - 1]);
      var k := KeyOf(rs[|rs| - 1]);
      if k in before then before else before + [k]
  }

  function FirstKeys(rs: seq<Record>, max: nat): seq<Key> {
    if |Keys(rs)| <= max then Keys(rs) else Keys(rs)[..max]
  }

  /** A key is among the first `max` exactly if fewer than `max` different ones occur before it. */
  lemma {:induction false} FirstKeysMeaning(rs: seq<Record>, max: nat, i: nat)
    requires i < |rs| && forall j :: 0 <= j < i ==> KeyOf(rs[j]) != KeyOf(rs[i])
    ensures KeyOf(rs[i]) in FirstKeys(rs, max) <==> |(set j | 0 <= j < i :: KeyOf(rs[j]))| < max
    decreases |rs|
  {
    var before, a := rs[..|rs| - 1], rs[|rs| - 1];
    assert rs == before + [a];
    FirstKeysGrow(before, a, max);
    KeysAreKeys(before);
    if i < |before| {
      assert before[i] == rs[i] && forall j :: 0 <= j < i ==> before[j] == rs[j];
      FirstKeysMeaning(before, max, i);
      assert KeyOf(before[i]) in Keys(before);
      assert (set j | 0 <= j < i :: KeyOf(before[j])) == (set j | 0 <= j < i :: KeyOf(rs[j]));
    } else {
      SizeOf(Keys(before));
      KeysBefore(before);
      assert (set j | 0 <= j < i :: KeyOf(rs[j])) == (set j | 0 <= j < |before| :: KeyOf(before[j]));
    }
  }

  lemma KeysBefore(rs: seq<Record>)
    ensures (set j | 0 <= j < |rs| :: KeyOf(rs[j])) == (set k | k in Keys(rs))
  {
    KeysAreKeys(rs);
    forall k ensures k in Keys(rs) <==> exists j :: 0 <= j < |rs| && KeyOf(rs[j]) == k {
      if k in Keys(rs) {
        var r :| r in rs && KeyOf(r) == k;
        var j :| 0 <= j < |rs| && rs[j] == r;
        assert KeyOf(rs[j]) == k;
      }
      if j :| 0 <= j < |rs| && KeyOf(rs[j]) == k {
        assert rs[j] in rs;
      }
    }
  }

  /** The records whose key is one of `keys`. */
  function Select(rs: seq<Record>, keys: seq<Key>): seq<Record> {
    if rs == [] then []
    else Select(rs[..|rs| - 1], keys) + if KeyOf(rs[|rs| - 1]) in keys then [rs[|rs| - 1]] else []
  }

  /** The records that belong to the first `max` distinct keys. */
  function Accepted(rs: seq<Record>, max: nat): seq<Record> {
    Select(rs, FirstKeys(rs, max))
  }

  function Ids(rs: seq<Record>): (ids: seq<int>)
    ensures |ids| == |rs|
  {
    seq(|rs|, i requires 0 <= i < |rs| => rs[i].id)
  }

  /** The files of all records of a key, in order. */
  function AllFiles(rs: seq<Record>): seq<string> {
    if rs == [] then [] else AllFiles(rs[..|rs| - 1]) + Files(rs[|rs| - 1])
  }

  ghost predicate Earliest(time: int, rs: seq<Record>) {
    && (exists r :: r in rs && r.time == time)
    && (forall r :: r in rs ==> time <= r.time)
  }

  /** A group after one more record of its key. */
  function Add(g: Group, a: Record): Group {
    Group(g.first, if a.time < g.time then a.time else g.time, g.files + Files(a))
  }

  /** The records of one key, merged one after the other. */
  function Merge(own: seq<Record>): Group
    requires own != []
  {
    if |own| == 1 then Add(Group(own[0], own[0].time, []), own[0])
    else Add(Merge(own[..|own| - 1]), own[|own| - 1])
  }

  /** Every record adds its files at the end; a record without any adds nothing. */
  lemma AllFilesGrow(rs: seq<Record>, a: Record)
    ensures AllFiles([]) == [] && AllFiles(rs + [a]) == AllFiles(rs) + if a.files.Some? then a.files.value else []
  {
    assert (rs + [a])[..|rs|] == rs;
  }

  /** The merge keeps the first record, all the files in order, and the earliest time. */
  lemma {:induction false} MergeMeaning(own: seq<Record>)
    requires own != []
    ensures Merge(own).first == own[0] && Merge(own).files == AllFiles(own) && Earliest(Merge(own).time, own)
    decreases |own|
  {
    var before, a := own[..|own| - 1], own[|own| - 1];
    assert own == before + [a];
    if |own| == 1 {
      assert AllFiles(before) == [];
    } else {
      MergeMeaning(before);
      var r :| r in before && r.time == Merge(before).time;
      assert r in own && a in own;
    }
  }

  // ---- One record more ----

  lemma KeysGrow(rs: seq<Record>, a: Record)
    ensures Keys(rs + [a]) == if KeyOf(a) in Keys(rs) then Keys(rs) else Keys(rs) + [KeyOf(a)]
  {
    assert (rs + [a])[..|rs|] == rs;
  }

  lemma SelectGrows(rs: seq<Record>, a: Record, keys: seq<Key>)
    ensures Select(rs + [a], keys) == Select(rs, keys) + if KeyOf(a) in keys then [a] else []
  {
    assert (rs + [a])[..|rs|] == rs;
  }

  lemma {:induction false} KeysAreKeys(rs: seq<Record>)
    ensures forall k :: k in Keys(rs) <==> exists r :: r in rs && KeyOf(r) == k
    ensures forall i, j :: 0 <= i < j < |Keys(rs)| ==> Keys(rs)[i] != Keys(rs)[j]
    decreases |rs|
  {
    if rs != [] {
      KeysAreKeys(rs[..|rs| - 1]);
      assert rs == rs[..|rs| - 1] + [rs[|rs| - 1]];
    }
  }

  /** Only the keys that occur matter for the selection. */
  lemma {:induction false} SelectSame(rs: seq<Record>, a: seq<Key>, b: seq<Key>)
    requires forall r :: r in rs ==> (KeyOf(r) in a <==> KeyOf(r) in b)
    ensures Select(rs, a) == Select(rs, b)
    decreases |rs|
  {
    if rs != [] {
      SelectSame(rs[..|rs| - 1], a, b);
      assert rs[|rs| - 1] in rs;
    }
  }

  lemma FirstKeysGrow(rs: seq<Record>, a: Record, max: nat)
    ensures FirstKeys(rs + [a], max) ==
              if KeyOf(a) in Keys(rs) || |Keys(rs)| >= max then FirstKeys(rs, max) else FirstKeys(rs, max) + [KeyOf(a)]
  {
    KeysGrow(rs, a);
  }

  lemma KeyOccurs(rs: seq<Record>, r: Record)
    requires r in rs
    ensures KeyOf(r) in Keys(rs)
  {
    KeysAreKeys(rs);
  }

  /** Taking the records one by one accepts the same ones: a decision is never revised. */
  lemma AcceptedGrows(rs: seq<Record>, a: Record, max: nat)
    ensures Accepted(rs + [a], max) == Accepted(rs, max) + if KeyOf(a) in FirstKeys(rs + [a], max) then [a] else []
  {
    var was, now := FirstKeys(rs, max), FirstKeys(rs + [a], max);
    FirstKeysGrow(rs, a, max);
    SelectGrows(rs, a, now);
    forall r | r in rs ensures KeyOf(r) in was <==> KeyOf(r) in now {
      KeyOccurs(rs, r);
    }
    SelectSame(rs, now, was);
  }

  /** `g` is the merge of all the records of `k`. */
  ghost predicate Merges(g: Group, rs: seq<Record>, k: Key) {
    Select(rs, [k]) != [] && g == Merge(Select(rs, [k]))
  }

  lemma MergesMore(g: Group, rs: seq<Record>, a: Record)
    requires Merges(g, rs, KeyOf(a))
    ensures Merges(Add(g, a), rs + [a], KeyOf(a))
  {
    var own := Select(rs, [KeyOf(a)]);
    SelectGrows(rs, a, [KeyOf(a)]);
    assert (own + [a])[..|own|] == own;
  }

  lemma MergesFirst(rs: seq<Record>, a: Record)
    requires KeyOf(a) !in Keys(rs)
    ensures Merges(Add(Group(a, a.time, []), a), rs + [a], KeyOf(a))
  {
    forall r | r in rs ensures KeyOf(r) != KeyOf(a) {
      KeyOccurs(rs, r);
    }
    SelectSame(rs, [KeyOf(a)], []);
    SelectNone(rs);
    SelectGrows(rs, a, [KeyOf(a)]);
    assert [] + [a] == [a];
  }

  lemma {:induction false} SelectNone(rs: seq<Record>)
    ensures Select(rs, []) == []
    decreases |rs|
  {
    if rs != [] {
      SelectNone(rs[..|rs| - 1]);
    }
  }

  lemma MergesOther(g: Group, rs: seq<Record>, k: Key, a: Record)
    requires Merges(g, rs, k) && k != KeyOf(a)
    ensures Merges(g, rs + [a], k)
  {
    SelectGrows(rs, a, [k]);
    assert Select(rs, [k]) + [] == Select(rs, [k]);
  }

  lemma IdsGrow(rs: seq<Record>, a: Record)
    ensures Ids(rs + [a]) == Ids(rs) + [a.id]
  {
  }

  lemma MergesOthers(m: map<Key, Group>, rs: seq<Record>, a: Record)
    requires forall k :: k in m ==> Merges(m[k], rs, k)
    ensures forall k :: k in m && k != KeyOf(a) ==> Merges(m[k], rs + [a], k)
  {
    forall k | k in m && k != KeyOf(a) ensures Merges(m[k], rs + [a], k) {
      MergesOther(m[k], rs, k, a);
    }
  }

  /** The map holds the merged records of the first `max` keys; `ids` lists the records that went in. */
  ghost predicate Merged(m: map<Key, Group>, ids: seq<int>, rs: seq<Record>, max: nat) {
    && m.Keys == (set k | k in FirstKeys(rs, max))
    && ids == Ids(Accepted(rs, max))
    && (forall k :: k in m ==> Merges(m[k], rs, k))
  }

  lemma MapSize(m: map<Key, Group>, ids: seq<int>, rs: seq<Record>, max: nat)
    requires Merged(m, ids, rs, max)
    ensures |m| == |FirstKeys(rs, max)|
  {
    KeysAreKeys(rs);
    SizeOf(FirstKeys(rs, max));
    assert |m| == |m.Keys|;
  }

  lemma {:induction false} SizeOf<T>(s: seq<T>)
    requires forall i, j :: 0 <= i < j < |s| ==> s[i] != s[j]
    ensures |(set x | x in s)| == |s|
    decreases |s|
  {
    if s != [] {
      var t, x := s[..|s| - 1], s[|s| - 1];
      SizeOf(t);
      assert s == t + [x];
      assert (set y | y in s) == (set y | y in t) + {x};
    }
  }

  lemma MergedMore(m: map<Key, Group>, ids: seq<int>, rs: seq<Record>, a: Record, max: nat)
    requires Merged(m, ids, rs, max) && KeyOf(a) in m
    ensures Merged(m[KeyOf(a) := Add(m[KeyOf(a)], a)], ids + [a.id], rs + [a], max)
  {
    KeyOfFirst(rs, KeyOf(a), max);
    FirstKeysGrow(rs, a, max);
    AcceptedGrows(rs, a, max);
    MergesMore(m[KeyOf(a)], rs, a);
    MergesOthers(m, rs, a);
    IdsGrow(Accepted(rs, max), a);
    var m' := m[KeyOf(a) := Add(m[KeyOf(a)], a)];
    assert m'.Keys == m.Keys;
  }

  lemma KeyOfFirst(rs: seq<Record>, k: Key, max: nat)
    requires k in FirstKeys(rs, max)
    ensures k in Keys(rs)
  {
  }

  lemma MergedNew(m: map<Key, Group>, ids: seq<int>, rs: seq<Record>, a: Record, max: nat)
    requires Merged(m, ids, rs, max) && KeyOf(a) !in m && |m| < max
    ensures Merged(m[KeyOf(a) := Add(Group(a, a.time, []), a)], ids + [a.id], rs + [a], max)
  {
    MapSize(m, ids, rs, max);
    FirstKeysGrow(rs, a, max);
    NewKey(FirstKeys(rs, max), KeyOf(a));
    AcceptedGrows(rs, a, max);
    MergesFirst(rs, a);
    MergesOthers(m, rs, a);
    IdsGrow(Accepted(rs, max), a);
    NewEntry(m, KeyOf(a), Add(Group(a, a.time, []), a), m[KeyOf(a) := Add(Group(a, a.time, []), a)], rs + [a]);
  }

  lemma NewKey(keys: seq<Key>, x: Key)
    ensures (set k | k in keys + [x]) == (set k | k in keys) + {x}
  {
  }

  lemma NewEntry(m: map<Key, Group>, x: Key, g: Group, m': map<Key, Group>, rs: seq<Record>)
    requires m' == m[x := g] && x !in m && Merges(g, rs, x) && forall k :: k in m && k != x ==> Merges(m[k], rs, k)
    ensures m'.Keys == m.Keys + {x} && forall k :: k in m' ==> Merges(m'[k], rs, k)
  {
  }

  lemma MergedSkip(m: map<Key, Group>, ids: seq<int>, rs: seq<Record>, a: Record, max: nat)
    requires Merged(m, ids, rs, max) && KeyOf(a) !in m && |m| >= max
    ensures Merged(m, ids, rs + [a], max)
  {
    MapSize(m, ids, rs, max);
    FirstKeysGrow(rs, a, max);
    AcceptedGrows(rs, a, max);
    MergesOthers(m, rs, a);
  }

  // ---- The code ----

  class EventMap {
    const max: nat
    var ids: seq<int>
    var m: map<Key, Group>

    constructor (max: nat)
      ensures this.max == max && ids == [] && m == map[]
      ensures Merged(m, ids, [], max)
    {
      this.max := max;
      ids, m := [], map[];
    }

    /** All the records of a page. */
    method PushAll(activity: seq<Record>, ghost seen: seq<Record>)
      requires Merged(m, ids, seen, max)
      modifies this
      ensures Merged(m, ids, seen + activity, max)
    {
      ghost var now := seen;
      assert seen + activity[..0] == seen;
      for i := 0 to |activity|
        invariant Merged(m, ids, now, max) && now == seen + activity[..i]
      {
        Push(activity[i], now);
        now := now + [activity[i]];
      }
      assert activity[..|activity|] == activity;
    }

    /** `seen` are the records pushed before. */
    method Push(a: Record, ghost seen: seq<Record>)
      requires Merged(m, ids, seen, max)
      modifies this
      ensures Merged(m, ids, seen + [a], max) && old(ids) <= ids
    {
      var key := KeyOf(a);
      var g;
      if key in m {
        MergedMore(m, ids, seen, a, max);
        g := m[key];
      } else {
        if |m| >= max {
          MergedSkip(m, ids, seen, a, max);
          return;
        }
        MergedNew(m, ids, seen, a, max);
        g := Group(a, a.time, []);
      }
      ids := ids + [a.id];
      if a.time < g.time {
        g := g.(time := a.time);
      }
      g := g.(files := g.files + Files(a));
      m := m[key := g];
    }
  }

  // ---- The rows ----

  function Without(rows: seq<Record>, ids: seq<int>): (r: seq<Record>)
    ensures |r| <= |rows|
  {
    if rows == [] then []
    else (if rows[0].id in ids then [] else [rows[0]]) + Without(rows[1..], ids)
  }

  lemma {:induction false} WithoutTwice(rows: seq<Record>, a: seq<int>, b: seq<int>)
    ensures Without(Without(rows, a), b) == Without(rows, a + b)
    decreases |rows|
  {
    if rows != [] {
      var r, rest := rows[0], Without(rows[1..], a);
      WithoutTwice(rows[1..], a, b);
      assert r.id in a + b <==> r.id in a || r.id in b;
      assert ([r] + rest)[1..] == rest && [] + rest == rest;
    }
  }

  lemma {:induction false} WithoutNone(rows: seq<Record>)
    ensures Without(rows, []) == rows
    decreases |rows|
  {
    if rows != [] {
      WithoutNone(rows[1..]);
    }
  }

  lemma {:induction false} WithoutMeaning(rows: seq<Record>, ids: seq<int>)
    ensures forall r :: r in Without(rows, ids) <==> r in rows && r.id !in ids
    decreases |rows|
  {
    if rows != [] {
      assert rows == [rows[0]] + rows[1..];
      WithoutMeaning(rows[1..], ids);
    }
  }

  datatype CronError = ErrCronRunning | FetchFailed | SendFailed | DeleteFailed

  /** The last page, of at most `max` rows, brought in no accepted row. */
  ghost predicate AddedNothing(rows: seq<Record>, n: nat, max: nat)
    requires n <= |rows|
  {
    exists j :: 0 <= j < n <= j + max && Accepted(rows[..j], max) == Accepted(rows[..n], max)
  }

  lemma {:induction false} NeverFewer(rows: seq<Record>, j: nat, n: nat, max: nat)
    requires j <= n <= |rows|
    ensures Accepted(rows[..j], max) <= Accepted(rows[..n], max)
    decreases n
  {
    if j < n {
      NeverFewer(rows, j, n - 1, max);
      assert rows[..n] == rows[..n - 1] + [rows[n - 1]];
      AcceptedGrows(rows[..n - 1], rows[n - 1], max);
    }
  }

  lemma NothingNew(rows: seq<Record>, j: nat, n: nat, max: nat)
    requires j < n <= |rows| && n <= j + max
    requires |Ids(Accepted(rows[..n], max))| <= |Ids(Accepted(rows[..j], max))|
    ensures AddedNothing(rows, n, max)
  {
    NeverFewer(rows, j, n, max);
    assert Accepted(rows[..j], max) == Accepted(rows[..n], max);
  }

  class SftpCron {
    const max: nat
    var running: bool
    var rows: seq<Record>

    constructor (max: nat, rows: seq<Record>)
      ensures this.max == max && this.rows == rows && !running
    {
      this.max, this.rows, running := max, rows, false;
    }

    /** One page; it is empty only behind the last row. */
    function FetchRecords(offset: nat): (page: seq<Record>)
      requires offset <= |rows|
      reads this
      ensures |page| <= max && offset + |page| <= |rows| && page == rows[offset..offset + |page|]
      ensures page == [] && max > 0 ==> offset == |rows|
    {
      if |rows| - offset <= max then rows[offset..] else rows[offset..offset + max]
    }

    /** Reads pages until one is empty or adds nothing. */
    method Collect(fetchOk: nat -> bool) returns (ok: bool, events: EventMap, n: nat)
      ensures n <= |rows| && fresh(events)
      ensures Merged(events.m, events.ids, rows[..n], max)
      ensures ok && rows != [] && max > 0 ==> n > 0
      ensures ok && max > 0 ==> n == |rows| || AddedNothing(rows, n, max)
      ensures ok ==> fetchOk(0)
      ensures !ok ==> !fetchOk(n)
    {
      events := new EventMap(max);
      n := 0;
      var o := 0;
      assert rows[..0] == [];
      if !fetchOk(o) {
        return false, events, n;
      }
      var activity := FetchRecords(o);
      o := o + |activity|;
      while |activity| != 0
        invariant fetchOk(0)
        invariant n <= o <= |rows| && activity == rows[n..o] && o - n <= max && fresh(events)
        invariant events.max == max && Merged(events.m, events.ids, rows[..n], max)
        invariant n == 0 && rows != [] && max > 0 ==> |activity| != 0
        invariant |activity| == 0 && max > 0 ==> o == |rows|
        decreases |rows| - n
      {
        var added := PushPage(events, activity, n, o);
        n := o;
        if !added {
          return true, events, n;
        }
        if !fetchOk(o) {
          return false, events, n;
        }
        activity := FetchRecords(o);
        o := o + |activity|;
      }
      ok := true;
    }

    /** Pushes the rows from `n` to `o`; `added`: at least one was accepted. */
    method PushPage(events: EventMap, activity: seq<Record>, n: nat, o: nat) returns (added: bool)
      requires n < o <= |rows| && activity == rows[n..o] && o - n <= max
      requires events.max == max && Merged(events.m, events.ids, rows[..n], max)
      modifies events
      ensures Merged(events.m, events.ids, rows[..o], max)
      ensures !added ==> AddedNothing(rows, o, max)
    {
      var slen := |events.ids|;
      events.PushAll(activity, rows[..n]);
      assert rows[..n] + rows[n..o] == rows[..o];
      added := |events.ids| > slen;
      if !added {
        NothingNew(rows, n, o, max);
      }
    }

    /**
     Deletes the rows with these ids, one statement for each of the `chunks`; `k` of the ids were reached.
     Without an error every id is in exactly one statement.
     */
    method DeleteAll(ids: seq<int>, deleteOk: nat -> bool) returns (ok: bool, k: nat, ghost chunks: seq<seq<int>>)
      modifies this`rows
      ensures k <= |ids| && rows == Without(old(rows), ids[..k])
      ensures Flatten(chunks) == ids[..k] && forall c :: c in chunks ==> 1 <= |c| <= 32000
      ensures ok ==> k == |ids|
      ensures !ok ==> k < |ids| && !deleteOk(k)
    {
      k, chunks := 0, [];
      WithoutNone(rows);
      assert ids[..0] == [];
      while k < |ids|
        invariant k <= |ids| && rows == Without(old(rows), ids[..k])
        invariant Flatten(chunks) == ids[..k] && forall c :: c in chunks ==> 1 <= |c| <= DELETE_BATCH
        decreases |ids| - k
      {
        var end := if k + DELETE_BATCH <= |ids| then k + DELETE_BATCH else |ids|;
        if !deleteOk(k) {
          return false, k, chunks;
        }
        WithoutTwice(old(rows), ids[..k], ids[k..end]);
        assert ids[..k] + ids[k..end] == ids[..end];
        FlattenGrows(chunks, ids[k..end]);
        chunks := chunks + [ids[k..end]];
        rows := Without(rows, ids[k..end]);
        k := end;
      }
      ok := true;
    }

    /**
     One run.  `n` rows were looked at; `sent` is what the Panel accepted.  Nothing is deleted before that,
     and a run without error deletes exactly the rows that were merged into what was sent.
     */
    method Run(fetchOk: nat -> bool, sendOk: bool, deleteOk: nat -> bool)
      returns (err: Option<CronError>, sent: Option<map<Key, Group>>, n: nat, k: nat)
      modifies this
      ensures running == old(running)
      ensures old(running) <==> err == Some(ErrCronRunning)
      ensures n <= |old(rows)| && k <= |Accepted(old(rows)[..n], max)|
      ensures err == Some(FetchFailed) ==> !fetchOk(n)
      ensures err == Some(SendFailed) ==> !sendOk
      ensures err == Some(DeleteFailed) ==> k < |Accepted(old(rows)[..n], max)| && !deleteOk(k)
      ensures sent.None? ==> rows == old(rows)
      ensures sent.Some? ==> sendOk && fetchOk(0)
      ensures sent.Some? ==>
                && Merged(sent.value, Ids(Accepted(old(rows)[..n], max)), old(rows)[..n], max)
                && rows == Without(old(rows), Ids(Accepted(old(rows)[..n], max))[..k])
      ensures err == None && sent.Some? ==> k == |Accepted(old(rows)[..n], max)|
      ensures err == None && old(rows) != [] && max > 0 ==> sent.Some? && n > 0
      ensures err == None && max > 0 ==> n == |old(rows)| || AddedNothing(old(rows), n, max)
    {
      sent, n, k := None, 0, 0;
      if running {
        return Some(ErrCronRunning), sent, n, k;
      }
      running := true;
      var ok, events;
      ok, events, n := Collect(fetchOk);
      if !ok {
        running := false;
        return Some(FetchFailed), sent, n, k;
      }
      if n > 0 && max > 0 {
        FirstIsAccepted(rows[..n], max);
        MapSize(events.m, events.ids, rows[..n], max);
      }
      if |events.m| == 0 {
        running := false;
        return None, sent, n, k;
      }
      if !sendOk {
        running := false;
        return Some(SendFailed), sent, n, k;
      }
      sent := Some(events.m);
      ghost var chunks;
      ok, k, chunks := DeleteAll(events.ids, deleteOk);
      running := false;
      err := if ok then None else Some(DeleteFailed);
    }
  }

  lemma FirstIsAccepted(rs: seq<Record>, max: nat)
    requires rs != [] && max > 0
    ensures FirstKeys(rs, max) != []
  {
    KeyOccurs(rs, rs[0]);
  }

  // ---- What the deleted rows were sent as ----

  lemma {:induction false} SelectMeaning(rs: seq<Record>, keys: seq<Key>)
    ensures forall r :: r in Select(rs, keys) <==> r in rs && KeyOf(r) in keys
    decreases |rs|
  {
    if rs != [] {
      SelectMeaning(rs[..|rs| - 1], keys);
      assert rs == rs[..|rs| - 1] + [rs[|rs| - 1]];
    }
  }

  lemma {:induction false} FilesAreIn(rs: seq<Record>, r: Record) returns (before: seq<string>, after: seq<string>)
    requires r in rs
    ensures AllFiles(rs) == before + Files(r) + after
    decreases |rs|
  {
    var init, last := rs[..|rs| - 1], rs[|rs| - 1];
    assert rs == init + [last];
    if r == last {
      before, after := AllFiles(init), [];
    } else {
      before, after := FilesAreIn(init, r);
      after := after + Files(last);
    }
  }

  ghost predicate UniqueIds(rs: seq<Record>) {
    forall i, j :: 0 <= i < j < |rs| ==> rs[i].id != rs[j].id
  }

  /**
   After a run the rows that are gone are those of the first `max` keys among the rows looked at, and the
   files of each are part of what was sent for its key.
   */
  lemma DeletedWereSent(rows: seq<Record>, n: nat, max: nat, sent: map<Key, Group>, r: Record)
    returns (before: seq<string>, after: seq<string>)
    requires UniqueIds(rows) && n <= |rows| && r in rows
    requires Merged(sent, Ids(Accepted(rows[..n], max)), rows[..n], max)
    ensures r !in Without(rows, Ids(Accepted(rows[..n], max))) <==> r in rows[..n] && KeyOf(r) in FirstKeys(rows[..n], max)
    ensures r !in Without(rows, Ids(Accepted(rows[..n], max))) ==>
              var k := Key(r.user, r.server, r.ip, r.event, r.time / 60);
              && k in sent && sent[k].time <= r.time
              && sent[k].files == before + (if r.files.Some? then r.files.value else []) + after
              && sent[k].first.user == r.user && sent[k].first.server == r.server
              && sent[k].first.ip == r.ip && sent[k].first.event == r.event
  {
    var acc := Accepted(rows[..n], max);
    SelectMeaning(rows[..n], FirstKeys(rows[..n], max));
    WithoutMeaning(rows, Ids(acc));
    IdTaken(rows, acc, r);
    before, after := [], [];
    if r in acc {
      var own := Select(rows[..n], [KeyOf(r)]);
      SelectMeaning(rows[..n], [KeyOf(r)]);
      MergeMeaning(own);
      before, after := FilesAreIn(own, r);
    }
  }

  lemma IdTaken(rows: seq<Record>, acc: seq<Record>, r: Record)
    requires UniqueIds(rows) && r in rows && forall x :: x in acc ==> x in rows
    ensures r.id in Ids(acc) <==> r in acc
  {
    if r.id in Ids(acc) {
      var i :| 0 <= i < |acc| && Ids(acc)[i] == r.id;
      assert acc[i] in rows;
    }
    if r in acc {
      var i :| 0 <= i < |acc| && acc[i] == r;
      assert Ids(acc)[i] == r.id;
    }
  }
}
