/**
 The server configuration the Panel hands to its nodes (panel/internal/api/remote/servers.go): `List` reads
 all the tables once and must build for every server what `Get` builds for that server alone.

 A query returns its rows in the order of the table.  Mounts are represented by their numbers.
 */
module PanelServers {
  import opened Prelude

  datatype ServerRow = ServerRow(id: nat, uuid: string, eggId: nat, nodeId: nat, allocationId: Option<nat>)
  datatype EggVariable = EggVariable(id: nat, eggId: nat, env: string, defaultValue: string)
  datatype ServerVariable = ServerVariable(serverId: nat, variableId: nat, value: string)
  datatype Allocation = Allocation(id: nat, serverId: Option<nat>, ip: string, port: int)
  datatype MountNode = MountNode(mountId: nat, nodeId: nat)
  datatype MountEgg = MountEgg(mountId: nat, eggId: nat)

  datatype Database = Database(servers: seq<ServerRow>, eggVars: seq<EggVariable>, serverVars: seq<ServerVariable>,
                               allocs: seq<Allocation>, mounts: set<nat>, mountNodes: seq<MountNode>, mountEggs: seq<MountEgg>)

  datatype Config = Config(env: map<string, string>, mappings: map<string, seq<int>>, primary: Option<(string, int)>,
                           mounts: Mounts)

  /** The "mounts" key of the settings: missing, null, or a list. */
  datatype Mounts = Absent | Null | Listed(ids: seq<nat>)

  function Ids(m: Mounts): seq<nat> {
    if m.Listed? then m.ids else []
  }

  // ---- Rows ----

  /** Reading more rows first makes no difference to the rows picked in the end. */
  lemma {:induction false} FilterTwice<T(!new)>(rows: seq<T>, p: T -> bool, q: T -> bool)
    requires forall r :: q(r) ==> p(r)
    ensures Filter(Filter(rows, p), q) == Filter(rows, q)
    decreases |rows|
  {
    if rows != [] {
      var before, r := rows[..|rows| - 1], rows[|rows| - 1];
      FilterTwice(before, p, q);
      FilterGrows(Filter(before, p), r, q);
      assert q(r) ==> p(r);
      if !p(r) {
        assert Filter(before, p) + [] == Filter(before, p) && Filter(before, q) + [] == Filter(before, q);
      }
    }
  }

  method FilterRows<T>(rows: seq<T>, p: T -> bool) returns (out: seq<T>)
    ensures out == Filter(rows, p)
  {
    out := [];
    for i := 0 to |rows|
      invariant out == Filter(rows[..i], p)
    {
      assert rows[..i + 1][..i] == rows[..i];
      if p(rows[i]) {
        out := out + [rows[i]];
      }
    }
    assert rows[..|rows|] == rows;
  }

  // ---- One server's configuration ----

  /** The value of a variable: the server's own, if it has one. */
  function ValueOf(v: EggVariable, serverVars: seq<ServerVariable>): string {
    if serverVars == [] then v.defaultValue
    else if serverVars[0].variableId == v.id then serverVars[0].value
    else ValueOf(v, serverVars[1..])
  }

  function EnvOf(eggVars: seq<EggVariable>, serverVars: seq<ServerVariable>): map<string, string> {
    if eggVars == [] then map[]
    else
      var v := eggVars[|eggVars| - 1];
      EnvOf(eggVars[..|eggVars| - 1], serverVars)[v.env := ValueOf(v, serverVars)]
  }

  /** The server's own value wins over the default, the first one if it has several. */
  lemma {:induction false} ValueMeaning(v: EggVariable, serverVars: seq<ServerVariable>, i: nat)
    requires i <= |serverVars| && forall j :: 0 <= j < i ==> serverVars[j].variableId != v.id
    requires i < |serverVars| ==> serverVars[i].variableId == v.id
    ensures ValueOf(v, serverVars) == if i < |serverVars| then serverVars[i].value else v.defaultValue
    decreases i
  {
    if i > 0 {
      ValueMeaning(v, serverVars[1..], i - 1);
    }
  }

  /** A name is there exactly if it is that of a variable of the egg, with the value of the last such variable. */
  lemma {:induction false} EnvMeaning(eggVars: seq<EggVariable>, serverVars: seq<ServerVariable>, name: string, i: nat)
    requires i <= |eggVars| && forall j :: i <= j < |eggVars| ==> eggVars[j].env != name
    requires i > 0 ==> eggVars[i - 1].env == name
    ensures name in EnvOf(eggVars, serverVars) <==> i > 0
    ensures i > 0 ==> EnvOf(eggVars, serverVars)[name] == ValueOf(eggVars[i - 1], serverVars)
    decreases |eggVars|
  {
    if i < |eggVars| {
      EnvMeaning(eggVars[..|eggVars| - 1], serverVars, name, i);
    }
  }

  function Ports(allocs: seq<Allocation>, ip: string): seq<int> {
    if allocs == [] then []
    else
      var a := allocs[|allocs| - 1];
      Ports(allocs[..|allocs| - 1], ip) + (if a.ip == ip then [a.port] else [])
  }

  function Mapped(allocs: seq<Allocation>): map<string, seq<int>> {
    if allocs == [] then map[]
    else
      var m, a := Mapped(allocs[..|allocs| - 1]), allocs[|allocs| - 1];
      m[a.ip := (if a.ip in m then m[a.ip] else []) + [a.port]]
  }

  /** The ports of every address; an empty entry stands for no allocations at all. */
  function MappingsOf(allocs: seq<Allocation>): map<string, seq<int>> {
    if allocs == [] then map["" := []] else Mapped(allocs)
  }

  /** Every address has its ports in order, and no other address has any. */
  lemma {:induction false} MappedMeaning(allocs: seq<Allocation>, ip: string)
    ensures ip in Mapped(allocs) <==> Ports(allocs, ip) != []
    ensures ip in Mapped(allocs) ==> Mapped(allocs)[ip] == Ports(allocs, ip)
    decreases |allocs|
  {
    if allocs != [] {
      MappedMeaning(allocs[..|allocs| - 1], ip);
    }
  }

  function LastWith(allocs: seq<Allocation>, id: nat): Option<(string, int)> {
    if allocs == [] then None
    else
      var a := allocs[|allocs| - 1];
      if a.id == id then Some((a.ip, a.port)) else LastWith(allocs[..|allocs| - 1], id)
  }

  /** The server's own allocation if it is among them, else the first one. */
  function PrimaryOf(s: ServerRow, allocs: seq<Allocation>): Option<(string, int)> {
    var own := if s.allocationId.Some? then LastWith(allocs, s.allocationId.value) else None;
    if own.None? && allocs != [] then Some((allocs[0].ip, allocs[0].port)) else own
  }

  /** `buildServerConfig`: the environment, the allocations, and no mounts yet. */
  method BuildServerConfig(s: ServerRow, eggVars: seq<EggVariable>, serverVars: seq<ServerVariable>, allocs: seq<Allocation>)
    returns (c: Config)
    ensures c == Config(EnvOf(eggVars, serverVars), MappingsOf(allocs), PrimaryOf(s, allocs), Absent)
  {
    var env: map<string, string> := map[];
    for i := 0 to |eggVars|
      invariant env == EnvOf(eggVars[..i], serverVars)
    {
      assert eggVars[..i + 1][..i] == eggVars[..i];
      var val := FindValue(eggVars[i], serverVars);
      env := env[eggVars[i].env := val];
    }
    assert eggVars[..|eggVars|] == eggVars;
    var mappings, primary := BuildAllocations(s, allocs);
    c := Config(env, mappings, primary, Absent);
  }

  method FindValue(v: EggVariable, serverVars: seq<ServerVariable>) returns (val: string)
    ensures val == ValueOf(v, serverVars)
  {
    val := v.defaultValue;
    for i := 0 to |serverVars|
      invariant val == v.defaultValue && ValueOf(v, serverVars) == ValueOf(v, serverVars[i..])
    {
      if serverVars[i].variableId == v.id {
        return serverVars[i].value;
      }
      assert serverVars[i..][1..] == serverVars[i + 1..];
    }
  }

  method BuildAllocations(s: ServerRow, allocs: seq<Allocation>) returns (mappings: map<string, seq<int>>, primary: Option<(string, int)>)
    ensures mappings == MappingsOf(allocs) && primary == PrimaryOf(s, allocs)
  {
    mappings, primary := map[], None;
    for i := 0 to |allocs|
      invariant mappings == Mapped(allocs[..i]) && (i > 0 ==> |mappings| > 0)
      invariant primary == if s.allocationId.Some? then LastWith(allocs[..i], s.allocationId.value) else None
    {
      var a := allocs[i];
      assert allocs[..i + 1][..i] == allocs[..i];
      mappings := mappings[a.ip := (if a.ip in mappings then mappings[a.ip] else []) + [a.port]];
      assert a.ip in mappings;
      if s.allocationId == Some(a.id) {
        primary := Some((a.ip, a.port));
      }
    }
    assert allocs[..|allocs|] == allocs;
    if primary.None? && |allocs| > 0 {
      primary := Some((allocs[0].ip, allocs[0].port));
    }
    if |mappings| == 0 {
      mappings := mappings["" := []];
    }
  }

  // ---- Mounts ----

  function MountsOn(mountNodes: seq<MountNode>, mountEggs: seq<MountEgg>): set<nat> {
    set mn | mn in mountNodes && (exists me :: me in mountEggs && me.mountId == mn.mountId) :: mn.mountId
  }

  /** The mounts that some node row and some egg row have in common. */
  method MatchMounts(mountNodes: seq<MountNode>, mountEggs: seq<MountEgg>) returns (ids: set<nat>)
    ensures ids == MountsOn(mountNodes, mountEggs)
  {
    ids := {};
    for i := 0 to |mountNodes|
      invariant ids == MountsOn(mountNodes[..i], mountEggs)
    {
      var found := false;
      for j := 0 to |mountEggs|
        invariant !found ==> forall k :: 0 <= k < j ==> mountEggs[k].mountId != mountNodes[i].mountId
        invariant found ==> exists me :: me in mountEggs && me.mountId == mountNodes[i].mountId
      {
        if mountNodes[i].mountId == mountEggs[j].mountId {
          found := true;
          break;
        }
      }
      if found {
        ids := ids + {mountNodes[i].mountId};
      }
      assert mountNodes[..i + 1] == mountNodes[..i] + [mountNodes[i]];
    }
    assert mountNodes[..|mountNodes|] == mountNodes;
  }

  /** Reads the rows of the mounts one by one, in no particular order; a missing row is skipped. */
  method LoadMounts(ids: set<nat>, mounts: set<nat>) returns (loaded: seq<nat>)
    ensures multiset(loaded) == multiset(ids * mounts)
  {
    loaded := [];
    var todo := ids;
    while todo != {}
      invariant todo <= ids && multiset(loaded) == multiset((ids - todo) * mounts)
      decreases todo
    {
      var m :| m in todo;
      if m in mounts {
        loaded := loaded + [m];
        assert (ids - (todo - {m})) * mounts == (ids - todo) * mounts + {m};
      } else {
        assert (ids - (todo - {m})) * mounts == (ids - todo) * mounts;
      }
      todo := todo - {m};
    }
    assert (ids - todo) * mounts == ids * mounts;
  }

  // ---- The mounts of all servers at once ----

  function ForNode(m: nat, mns: seq<MountNode>, node: nat): seq<nat> {
    if mns == [] then []
    else ForNode(m, mns[..|mns| - 1], node) + (if mns[|mns| - 1] == MountNode(m, node) then [m] else [])
  }

  function ForEgg(m: nat, mes: seq<MountEgg>, mns: seq<MountNode>, egg: nat, node: nat): seq<nat> {
    if mes == [] then []
    else ForEgg(m, mes[..|mes| - 1], mns, egg, node) + (if mes[|mes| - 1] == MountEgg(m, egg) then ForNode(m, mns, node) else [])
  }

  function ForAll(ms: seq<nat>, mes: seq<MountEgg>, mns: seq<MountNode>, egg: nat, node: nat): seq<nat> {
    if ms == [] then []
    else ForAll(ms[..|ms| - 1], mes, mns, egg, node) + ForEgg(ms[|ms| - 1], mes, mns, egg, node)
  }

  type ByEggNode = map<(nat, nat), seq<nat>>

  function AtKey(table: ByEggNode, egg: nat, node: nat): seq<nat> {
    if (egg, node) in table then table[(egg, node)] else []
  }

  ghost predicate NoneEmpty(table: ByEggNode) {
    forall k :: k in table ==> table[k] != []
  }

  method GroupMounts(ms: seq<nat>, mes: seq<MountEgg>, mns: seq<MountNode>) returns (table: ByEggNode)
    ensures NoneEmpty(table) && forall e: nat, n: nat :: AtKey(table, e, n) == ForAll(ms, mes, mns, e, n)
  {
    table := map[];
    for i := 0 to |ms|
      invariant NoneEmpty(table) && forall e: nat, n: nat :: AtKey(table, e, n) == ForAll(ms[..i], mes, mns, e, n)
    {
      table := AddMount(table, ms[i], mes, mns);
      assert ms[..i + 1][..i] == ms[..i];
    }
    assert ms[..|ms|] == ms;
  }

  method AddMount(was: ByEggNode, m: nat, mes: seq<MountEgg>, mns: seq<MountNode>) returns (table: ByEggNode)
    requires NoneEmpty(was)
    ensures NoneEmpty(table) && forall e: nat, n: nat :: AtKey(table, e, n) == AtKey(was, e, n) + ForEgg(m, mes, mns, e, n)
  {
    table := was;
    for j := 0 to |mes|
      invariant NoneEmpty(table)
      invariant forall e: nat, n: nat :: AtKey(table, e, n) == AtKey(was, e, n) + ForEgg(m, mes[..j], mns, e, n)
    {
      EggStep(was, m, mes, mns, j);
      if mes[j].mountId == m {
        table := AddNodes(table, m, mes[j].eggId, mns);
      }
    }
    assert mes[..|mes|] == mes;
  }

  lemma EggStep(was: ByEggNode, m: nat, mes: seq<MountEgg>, mns: seq<MountNode>, j: nat)
    requires j < |mes|
    ensures forall e: nat, n: nat :: AtKey(was, e, n) + ForEgg(m, mes[..j + 1], mns, e, n) ==
              (AtKey(was, e, n) + ForEgg(m, mes[..j], mns, e, n)) + (if mes[j] == MountEgg(m, e) then ForNode(m, mns, n) else [])
  {
    assert mes[..j + 1][..j] == mes[..j];
  }

  lemma NodeStep(was: ByEggNode, m: nat, egg: nat, mns: seq<MountNode>, k: nat)
    requires k < |mns|
    ensures forall e: nat, n: nat :: AtKey(was, e, n) + (if e == egg then ForNode(m, mns[..k + 1], n) else []) ==
              (AtKey(was, e, n) + (if e == egg then ForNode(m, mns[..k], n) else []))
              + (if e == egg && mns[k] == MountNode(m, n) then [m] else [])
  {
    assert mns[..k + 1][..k] == mns[..k];
  }

  lemma Put(table: ByEggNode, egg: nat, node: nat, m: nat)
    requires NoneEmpty(table)
    ensures var t := table[(egg, node) := AtKey(table, egg, node) + [m]];
            && NoneEmpty(t)
            && forall e: nat, n: nat :: AtKey(t, e, n) == AtKey(table, e, n) + (if e == egg && n == node then [m] else [])
  {
  }

  method AddNodes(was: ByEggNode, m: nat, egg: nat, mns: seq<MountNode>) returns (table: ByEggNode)
    requires NoneEmpty(was)
    ensures NoneEmpty(table)
    ensures forall e: nat, n: nat :: AtKey(table, e, n) == AtKey(was, e, n) + (if e == egg then ForNode(m, mns, n) else [])
  {
    table := was;
    for k := 0 to |mns|
      invariant NoneEmpty(table)
      invariant forall e: nat, n: nat :: AtKey(table, e, n) == AtKey(was, e, n) + (if e == egg then ForNode(m, mns[..k], n) else [])
    {
      NodeStep(was, m, egg, mns, k);
      if mns[k].mountId == m {
        Put(table, egg, mns[k].nodeId, m);
        table := table[(egg, mns[k].nodeId) := AtKey(table, egg, mns[k].nodeId) + [m]];
      }
    }
    assert mns[..|mns|] == mns;
  }

  // ---- How often a mount is listed ----

  lemma {:induction false} CountNode(m: nat, mns: seq<MountNode>, node: nat, x: nat)
    ensures multiset(ForNode(m, mns, node))[x] == if x == m then multiset(mns)[MountNode(m, node)] else 0
    decreases |mns|
  {
    if mns != [] {
      CountNode(m, mns[..|mns| - 1], node, x);
      assert mns == mns[..|mns| - 1] + [mns[|mns| - 1]];
    }
  }

  /** `a` times `b`, counted up. */
  function Times(a: nat, b: nat): nat {
    if a == 0 then 0 else Times(a - 1, b) + b
  }

  lemma {:induction false} TimesIs(a: nat, b: nat)
    ensures Times(a, b) == a * b
    decreases a
  {
    if a > 0 {
      TimesIs(a - 1, b);
      assert a * b == (a - 1) * b + b;
    }
  }

  lemma CountLast<T>(s: seq<T>, x: T)
    requires s != []
    ensures multiset(s)[x] == multiset(s[..|s| - 1])[x] + if s[|s| - 1] == x then 1 else 0
  {
    assert s == s[..|s| - 1] + [s[|s| - 1]];
  }

  lemma {:induction false} CountEgg(m: nat, mes: seq<MountEgg>, mns: seq<MountNode>, egg: nat, node: nat, x: nat)
    ensures multiset(ForEgg(m, mes, mns, egg, node))[x] ==
              if x == m then Times(multiset(mes)[MountEgg(m, egg)], multiset(mns)[MountNode(m, node)]) else 0
    decreases |mes|
  {
    if mes != [] {
      CountEgg(m, mes[..|mes| - 1], mns, egg, node, x);
      CountNode(m, mns, node, x);
      CountLast(mes, MountEgg(m, egg));
    }
  }

  /** The join of the two tables: once for every pair of rows. */
  lemma {:induction false} CountAll(ms: seq<nat>, mes: seq<MountEgg>, mns: seq<MountNode>, egg: nat, node: nat, x: nat)
    ensures multiset(ForAll(ms, mes, mns, egg, node))[x] ==
              Times(multiset(ms)[x], Times(multiset(mes)[MountEgg(x, egg)], multiset(mns)[MountNode(x, node)]))
    decreases |ms|
  {
    if ms != [] {
      CountAll(ms[..|ms| - 1], mes, mns, egg, node, x);
      CountEgg(ms[|ms| - 1], mes, mns, egg, node, x);
      CountLast(ms, x);
    }
  }

  lemma {:induction false} CountFilter<T>(rows: seq<T>, p: T -> bool, r: T)
    ensures multiset(Filter(rows, p))[r] == if p(r) then multiset(rows)[r] else 0
    decreases |rows|
  {
    if rows != [] {
      CountFilter(rows[..|rows| - 1], p, r);
      assert rows == rows[..|rows| - 1] + [rows[|rows| - 1]];
    }
  }

  // ---- The queries ----

  function EggVarOf(eggs: set<nat>): EggVariable -> bool { (v: EggVariable) => v.eggId in eggs }
  function ServerVarOf(ids: set<nat>): ServerVariable -> bool { (v: ServerVariable) => v.serverId in ids }
  function AllocationOf(ids: set<nat>): Allocation -> bool { (a: Allocation) => a.serverId.Some? && a.serverId.value in ids }
  function MountNodeOf(nodes: set<nat>): MountNode -> bool { (mn: MountNode) => mn.nodeId in nodes }
  function MountEggOf(eggs: set<nat>): MountEgg -> bool { (me: MountEgg) => me.eggId in eggs }

  /** Everything but the mounts, from the server's own rows. */
  function Own(db: Database, s: ServerRow): Config {
    var allocs := Filter(db.allocs, AllocationOf({s.id}));
    Config(EnvOf(Filter(db.eggVars, EggVarOf({s.eggId})), Filter(db.serverVars, ServerVarOf({s.id}))),
           MappingsOf(allocs), PrimaryOf(s, allocs), Absent)
  }

  /** How many pairs of rows connect mount `m` with the server's node and egg. */
  function Pairs(db: Database, s: ServerRow, m: nat): nat {
    if m in db.mounts then multiset(db.mountEggs)[MountEgg(m, s.eggId)] * multiset(db.mountNodes)[MountNode(m, s.nodeId)]
    else 0
  }

  /** The mounts of one server: each once. */
  ghost predicate FromGet(db: Database, s: ServerRow, c: Config) {
    && c.(mounts := Absent) == Own(db, s)
    && (forall m: nat :: multiset(Ids(c.mounts))[m] == if Pairs(db, s, m) > 0 then 1 else 0)
    && (c.mounts.Listed? <==> Ids(c.mounts) != []) && c.mounts != Absent
  }

  /** The mounts of one server in the list: each as often as its rows are joined. */
  ghost predicate FromList(db: Database, s: ServerRow, c: Config) {
    && c.(mounts := Absent) == Own(db, s)
    && (forall m: nat :: multiset(Ids(c.mounts))[m] == Pairs(db, s, m))
    && (c.mounts.Listed? <==> Ids(c.mounts) != []) && c.mounts != Null
  }

  /** The first server with this number, if there is one. */
  method FindServer(db: Database, uuid: string) returns (found: Option<nat>)
    ensures found.Some? ==> found.value < |db.servers| && db.servers[found.value].uuid == uuid
    ensures forall i :: 0 <= i < (if found.Some? then found.value else |db.servers|) && i < |db.servers| ==> db.servers[i].uuid != uuid
  {
    for i := 0 to |db.servers|
      invariant forall j :: 0 <= j < i ==> db.servers[j].uuid != uuid
    {
      if db.servers[i].uuid == uuid {
        return Some(i);
      }
    }
    return None;
  }

  method Get(db: Database, uuid: string) returns (c: Option<Config>)
    ensures c.None? <==> forall s :: s in db.servers ==> s.uuid != uuid
    ensures c.Some? ==>
              exists i :: 0 <= i < |db.servers| && db.servers[i].uuid == uuid && FromGet(db, db.servers[i], c.value)
                          && forall j :: 0 <= j < i ==> db.servers[j].uuid != uuid
  {
    var found := FindServer(db, uuid);
    if found.None? {
      return None;
    }
    var config := GetOne(db, db.servers[found.value]);
    assert db.servers[found.value] in db.servers;
    return Some(config);
  }

  method GetOne(db: Database, s: ServerRow) returns (c: Config)
    ensures FromGet(db, s, c)
  {
    var eggVars := FilterRows(db.eggVars, EggVarOf({s.eggId}));
    var serverVars := FilterRows(db.serverVars, ServerVarOf({s.id}));
    var allocs := FilterRows(db.allocs, AllocationOf({s.id}));
    var mountNodes := FilterRows(db.mountNodes, MountNodeOf({s.nodeId}));
    var mountEggs := FilterRows(db.mountEggs, MountEggOf({s.eggId}));
    var ids := MatchMounts(mountNodes, mountEggs);
    var mounts := LoadMounts(ids, db.mounts);
    c := BuildServerConfig(s, eggVars, serverVars, allocs);
    c := c.(mounts := if mounts == [] then Null else Listed(mounts));
    GetCounts(db, s, mounts);
  }

  lemma GetCounts(db: Database, s: ServerRow, mounts: seq<nat>)
    requires multiset(mounts) == multiset(MountsOn(Filter(db.mountNodes, MountNodeOf({s.nodeId})), Filter(db.mountEggs, MountEggOf({s.eggId}))) * db.mounts)
    ensures forall m: nat :: multiset(mounts)[m] == if Pairs(db, s, m) > 0 then 1 else 0
  {
    var mns, mes := Filter(db.mountNodes, MountNodeOf({s.nodeId})), Filter(db.mountEggs, MountEggOf({s.eggId}));
    FilterMeaning(db.mountNodes, MountNodeOf({s.nodeId}));
    FilterMeaning(db.mountEggs, MountEggOf({s.eggId}));
    forall m: nat ensures m in MountsOn(mns, mes) <==> MountNode(m, s.nodeId) in db.mountNodes && MountEgg(m, s.eggId) in db.mountEggs {
      if m in MountsOn(mns, mes) {
        var mn :| mn in mns && mn.mountId == m && exists me :: me in mes && me.mountId == mn.mountId;
        var me :| me in mes && me.mountId == m;
        assert mn == MountNode(m, s.nodeId) && me == MountEgg(m, s.eggId);
      }
      if MountNode(m, s.nodeId) in db.mountNodes && MountEgg(m, s.eggId) in db.mountEggs {
        assert MountNode(m, s.nodeId) in mns && MountEgg(m, s.eggId) in mes;
      }
    }
    forall m: nat ensures Pairs(db, s, m) > 0 <==> m in MountsOn(mns, mes) * db.mounts {
      Positive(multiset(db.mountEggs)[MountEgg(m, s.eggId)], multiset(db.mountNodes)[MountNode(m, s.nodeId)]);
    }
  }

  lemma Positive(a: nat, b: nat)
    ensures a * b > 0 <==> a > 0 && b > 0
  {
  }

  /** The table lists the server's mounts, each as often as its rows are joined. */
  ghost predicate JoinsFor(db: Database, s: ServerRow, table: ByEggNode) {
    forall m: nat :: multiset(AtKey(table, s.eggId, s.nodeId))[m] == Pairs(db, s, m)
  }

  method MountTable(db: Database, eggIds: set<nat>, nodeIds: set<nat>) returns (table: ByEggNode)
    ensures NoneEmpty(table)
    ensures forall s: ServerRow :: s.eggId in eggIds && s.nodeId in nodeIds ==> JoinsFor(db, s, table)
  {
    var allMountNodes := FilterRows(db.mountNodes, MountNodeOf(nodeIds));
    var allMountEggs := FilterRows(db.mountEggs, MountEggOf(eggIds));
    var ids := MatchMounts(allMountNodes, allMountEggs);
    var allMounts := LoadMounts(ids, db.mounts);
    table := GroupMounts(allMounts, allMountEggs, allMountNodes);
    forall s: ServerRow | s.eggId in eggIds && s.nodeId in nodeIds ensures JoinsFor(db, s, table) {
      ListCounts(db, s, eggIds, nodeIds, allMounts);
    }
  }

  method List(db: Database, nodeId: nat) returns (servers: seq<ServerRow>, data: seq<Config>)
    ensures servers == Filter(db.servers, OnNode(nodeId)) && |data| == |servers|
    ensures forall i :: 0 <= i < |servers| ==> FromList(db, servers[i], data[i])
  {
    servers := FilterRows(db.servers, OnNode(nodeId));
    var eggIds := set s | s in servers :: s.eggId;
    var serverIds := set s | s in servers :: s.id;
    var nodeIds := set s | s in servers :: s.nodeId;
    var allEggVars := FilterRows(db.eggVars, EggVarOf(eggIds));
    var allServerVars := FilterRows(db.serverVars, ServerVarOf(serverIds));
    var allAllocs := FilterRows(db.allocs, AllocationOf(serverIds));
    var table := MountTable(db, eggIds, nodeIds);
    data := BuildAll(db, servers, eggIds, serverIds, allEggVars, allServerVars, allAllocs, table);
  }

  /** The loop over the servers. */
  method BuildAll(ghost db: Database, servers: seq<ServerRow>, ghost eggIds: set<nat>, ghost serverIds: set<nat>,
                  eggVars: seq<EggVariable>, serverVars: seq<ServerVariable>, allocs: seq<Allocation>, table: ByEggNode)
    returns (data: seq<Config>)
    requires NoneEmpty(table) && forall s :: s in servers ==> s.eggId in eggIds && s.id in serverIds && JoinsFor(db, s, table)
    requires eggVars == Filter(db.eggVars, EggVarOf(eggIds)) && serverVars == Filter(db.serverVars, ServerVarOf(serverIds))
    requires allocs == Filter(db.allocs, AllocationOf(serverIds))
    ensures |data| == |servers| && forall i :: 0 <= i < |servers| ==> FromList(db, servers[i], data[i])
  {
    data := [];
    for i := 0 to |servers|
      invariant AllFromList(db, servers[..i], data)
    {
      var s := servers[i];
      assert s in servers;
      var item := ListItem(db, s, eggIds, serverIds, eggVars, serverVars, allocs, table);
      OneMoreItem(db, servers, i, data, item);
      data := data + [item];
    }
    assert servers[..|servers|] == servers;
    forall i | 0 <= i < |servers| ensures FromList(db, servers[i], data[i]) {
      EachFromList(db, servers, data, i);
    }
  }

  /** The entries belong to the servers, one by one. */
  ghost predicate AllFromList(db: Database, servers: seq<ServerRow>, data: seq<Config>)
    decreases |data|
  {
    && |servers| == |data|
    && (data != [] ==>
          && FromList(db, servers[|data| - 1], data[|data| - 1])
          && AllFromList(db, servers[..|data| - 1], data[..|data| - 1]))
  }

  lemma OneMoreItem(db: Database, servers: seq<ServerRow>, i: nat, data: seq<Config>, item: Config)
    requires i < |servers| && AllFromList(db, servers[..i], data) && FromList(db, servers[i], item)
    ensures AllFromList(db, servers[..i + 1], data + [item])
  {
    assert servers[..i + 1][..i] == servers[..i] && (data + [item])[..i] == data;
  }

  lemma {:induction false} EachFromList(db: Database, servers: seq<ServerRow>, data: seq<Config>, i: nat)
    requires AllFromList(db, servers, data) && i < |data|
    ensures FromList(db, servers[i], data[i])
    decreases |data|
  {
    if i < |data| - 1 {
      EachFromList(db, servers[..|data| - 1], data[..|data| - 1], i);
    }
  }

  /** One server of the list, from the rows and the table read for all of them. */
  method ListItem(ghost db: Database, s: ServerRow, ghost eggIds: set<nat>, ghost serverIds: set<nat>, eggVars: seq<EggVariable>,
                  serverVars: seq<ServerVariable>, allocs: seq<Allocation>, table: ByEggNode) returns (item: Config)
    requires s.eggId in eggIds && s.id in serverIds && NoneEmpty(table)
    requires eggVars == Filter(db.eggVars, EggVarOf(eggIds)) && serverVars == Filter(db.serverVars, ServerVarOf(serverIds))
    requires allocs == Filter(db.allocs, AllocationOf(serverIds))
    requires JoinsFor(db, s, table)
    ensures FromList(db, s, item)
  {
    var ev := FilterRows(eggVars, EggVarOf({s.eggId}));
    var sv := FilterRows(serverVars, ServerVarOf({s.id}));
    var al := FilterRows(allocs, AllocationOf({s.id}));
    FilterTwice(db.eggVars, EggVarOf(eggIds), EggVarOf({s.eggId}));
    FilterTwice(db.serverVars, ServerVarOf(serverIds), ServerVarOf({s.id}));
    FilterTwice(db.allocs, AllocationOf(serverIds), AllocationOf({s.id}));
    item := BuildServerConfig(s, ev, sv, al);
    if (s.eggId, s.nodeId) in table {
      item := item.(mounts := Listed(table[(s.eggId, s.nodeId)]));
    }
  }

  function OnNode(nodeId: nat): ServerRow -> bool { (s: ServerRow) => s.nodeId == nodeId }

  /** The list has every server of the node as often as the table. */
  lemma OnNodeMeaning(db: Database, nodeId: nat, s: ServerRow)
    ensures multiset(Filter(db.servers, OnNode(nodeId)))[s] == if s.nodeId == nodeId then multiset(db.servers)[s] else 0
  {
    CountFilter(db.servers, OnNode(nodeId), s);
  }

  lemma ListCounts(db: Database, s: ServerRow, eggs: set<nat>, nodes: set<nat>, ms: seq<nat>)
    requires s.eggId in eggs && s.nodeId in nodes
    requires multiset(ms) == multiset(MountsOn(Filter(db.mountNodes, MountNodeOf(nodes)), Filter(db.mountEggs, MountEggOf(eggs))) * db.mounts)
    ensures forall m: nat ::
              multiset(ForAll(ms, Filter(db.mountEggs, MountEggOf(eggs)), Filter(db.mountNodes, MountNodeOf(nodes)), s.eggId, s.nodeId))[m]
              == Pairs(db, s, m)
  {
    var mns, mes := Filter(db.mountNodes, MountNodeOf(nodes)), Filter(db.mountEggs, MountEggOf(eggs));
    forall m: nat ensures multiset(ForAll(ms, mes, mns, s.eggId, s.nodeId))[m] == Pairs(db, s, m) {
      var me, mn := MountEgg(m, s.eggId), MountNode(m, s.nodeId);
      CountAll(ms, mes, mns, s.eggId, s.nodeId, m);
      CountFilter(db.mountEggs, MountEggOf(eggs), me);
      CountFilter(db.mountNodes, MountNodeOf(nodes), mn);
      TimesIs(multiset(mes)[me], multiset(mns)[mn]);
      Positive(multiset(mes)[me], multiset(mns)[mn]);
      if me in mes && mn in mns {
        assert m in MountsOn(mns, mes);
        assert Times(1, Times(multiset(mes)[me], multiset(mns)[mn])) == Times(0, Times(multiset(mes)[me], multiset(mns)[mn])) + Times(multiset(mes)[me], multiset(mns)[mn]);
      } else {
        TimesIs(multiset(ms)[m], 0);
      }
    }
  }

  // ---- A configuration in terms of the tables ----

  lemma {:induction false} FilterConcat<T>(a: seq<T>, b: seq<T>, p: T -> bool)
    ensures Filter(a + b, p) == Filter(a, p) + Filter(b, p)
    decreases |b|
  {
    if b == [] {
      assert a + b == a;
    } else {
      var n := |b| - 1;
      assert a + b == (a + b[..n]) + [b[n]];
      FilterGrows(a + b[..n], b[n], p);
      FilterConcat(a, b[..n], p);
    }
  }

  /** Where a picked row ends up. */
  lemma FilterAt<T>(rows: seq<T>, p: T -> bool, i: nat)
    requires i < |rows| && p(rows[i])
    ensures var n := |Filter(rows[..i], p)|;
            && n < |Filter(rows, p)| && Filter(rows, p)[n] == rows[i]
            && Filter(rows, p)[..n] == Filter(rows[..i], p) && Filter(rows, p)[n + 1..] == Filter(rows[i + 1..], p)
  {
    var one := [rows[i]];
    assert rows == rows[..i] + (one + rows[i + 1..]);
    FilterConcat(rows[..i], one + rows[i + 1..], p);
    FilterConcat(one, rows[i + 1..], p);
    assert one == [] + [rows[i]];
    FilterGrows([], rows[i], p);
  }

  /** The value of a variable: that of the server's first row for it, without one the default. */
  lemma ValueOfServer(db: Database, s: ServerRow, v: EggVariable, k: nat)
    requires k <= |db.serverVars|
    requires forall j :: 0 <= j < k ==> !(db.serverVars[j].serverId == s.id && db.serverVars[j].variableId == v.id)
    requires k < |db.serverVars| ==> db.serverVars[k].serverId == s.id && db.serverVars[k].variableId == v.id
    ensures ValueOf(v, Filter(db.serverVars, ServerVarOf({s.id}))) ==
              if k < |db.serverVars| then db.serverVars[k].value else v.defaultValue
  {
    var rows, p := db.serverVars, ServerVarOf({s.id});
    FilterMeaning(rows[..k], p);
    if k < |rows| {
      FilterAt(rows, p, k);
      var n := |Filter(rows[..k], p)|;
      assert forall j :: 0 <= j < n ==> Filter(rows, p)[j] == Filter(rows[..k], p)[j] && Filter(rows[..k], p)[j] in rows[..k];
      ValueMeaning(v, Filter(rows, p), n);
    } else {
      assert rows[..k] == rows;
      assert forall j :: 0 <= j < |Filter(rows, p)| ==> Filter(rows, p)[j] in Filter(rows[..k], p);
      ValueMeaning(v, Filter(rows, p), |Filter(rows, p)|);
    }
  }

  /** The environment of a server: the last variable of its egg with a name, the server's first value for it. */
  lemma EnvOfServer(db: Database, s: ServerRow, c: Config, i: nat, k: nat)
    requires FromGet(db, s, c) || FromList(db, s, c)
    requires i < |db.eggVars| && db.eggVars[i].eggId == s.eggId
    requires forall j :: i < j < |db.eggVars| && db.eggVars[j].eggId == s.eggId ==> db.eggVars[j].env != db.eggVars[i].env
    requires k <= |db.serverVars|
    requires forall j :: 0 <= j < k ==> !(db.serverVars[j].serverId == s.id && db.serverVars[j].variableId == db.eggVars[i].id)
    requires k < |db.serverVars| ==> db.serverVars[k].serverId == s.id && db.serverVars[k].variableId == db.eggVars[i].id
    ensures db.eggVars[i].env in c.env
    ensures c.env[db.eggVars[i].env] == if k < |db.serverVars| then db.serverVars[k].value else db.eggVars[i].defaultValue
  {
    var rows, p := db.eggVars, EggVarOf({s.eggId});
    var n := |Filter(rows[..i], p)|;
    FilterAt(rows, p, i);
    FilterMeaning(rows[i + 1..], p);
    forall j | n < j < |Filter(rows, p)| ensures Filter(rows, p)[j].env != rows[i].env {
      assert Filter(rows, p)[j] == Filter(rows, p)[n + 1..][j - (n + 1)];
      assert Filter(rows, p)[j] in rows[i + 1..];
    }
    EnvMeaning(Filter(rows, p), Filter(db.serverVars, ServerVarOf({s.id})), rows[i].env, n + 1);
    ValueOfServer(db, s, rows[i], k);
  }

  /** Which variables and addresses a server's configuration names. */
  lemma ConfigMeaning(db: Database, s: ServerRow, c: Config, name: string)
    requires FromGet(db, s, c) || FromList(db, s, c)
    ensures name in c.env <==> exists v :: v in db.eggVars && v.eggId == s.eggId && v.env == name
    ensures name in c.mappings <==>
              || (exists a :: a in db.allocs && a.serverId == Some(s.id) && a.ip == name)
              || (name == "" && forall a :: a in db.allocs ==> a.serverId != Some(s.id))
    ensures c.primary == None <==> forall a :: a in db.allocs ==> a.serverId != Some(s.id)
  {
    EnvNames(db, s, name);
    OwnAllocations(db, s, name);
  }

  /** Which mounts it names: those joined with both its node and its egg, in the list once for every pair of rows. */
  lemma MountsOfServer(db: Database, s: ServerRow, c: Config, m: nat)
    requires FromGet(db, s, c) || FromList(db, s, c)
    ensures m in Ids(c.mounts) <==>
              m in db.mounts && MountEgg(m, s.eggId) in db.mountEggs && MountNode(m, s.nodeId) in db.mountNodes
    ensures FromList(db, s, c) && m in db.mounts ==>
              multiset(Ids(c.mounts))[m] == multiset(db.mountEggs)[MountEgg(m, s.eggId)] * multiset(db.mountNodes)[MountNode(m, s.nodeId)]
  {
    assert m in Ids(c.mounts) <==> multiset(Ids(c.mounts))[m] > 0;
    Positive(multiset(db.mountEggs)[MountEgg(m, s.eggId)], multiset(db.mountNodes)[MountNode(m, s.nodeId)]);
  }

  lemma EnvNames(db: Database, s: ServerRow, name: string)
    ensures name in Own(db, s).env <==> exists v :: v in db.eggVars && v.eggId == s.eggId && v.env == name
  {
    var vars := Filter(db.eggVars, EggVarOf({s.eggId}));
    FilterMeaning(db.eggVars, EggVarOf({s.eggId}));
    EnvKeys(vars, Filter(db.serverVars, ServerVarOf({s.id})), name);
    assert forall v :: v in vars <==> v in db.eggVars && v.eggId == s.eggId;
  }

  lemma {:induction false} EnvKeys(eggVars: seq<EggVariable>, serverVars: seq<ServerVariable>, name: string)
    ensures name in EnvOf(eggVars, serverVars) <==> exists v :: v in eggVars && v.env == name
    decreases |eggVars|
  {
    if eggVars != [] {
      var before, v := eggVars[..|eggVars| - 1], eggVars[|eggVars| - 1];
      EnvKeys(before, serverVars, name);
      assert eggVars == before + [v];
    }
  }

  lemma OwnAllocations(db: Database, s: ServerRow, ip: string)
    ensures ip in Own(db, s).mappings <==>
              || (exists a :: a in db.allocs && a.serverId == Some(s.id) && a.ip == ip)
              || (ip == "" && forall a :: a in db.allocs ==> a.serverId != Some(s.id))
    ensures Own(db, s).primary == None <==> forall a :: a in db.allocs ==> a.serverId != Some(s.id)
  {
    var allocs := Filter(db.allocs, AllocationOf({s.id}));
    FilterMeaning(db.allocs, AllocationOf({s.id}));
    assert forall a :: a in allocs <==> a in db.allocs && a.serverId == Some(s.id);
    MappedKeys(allocs, ip);
    if allocs != [] {
      assert allocs[0] in allocs;
    }
  }

  lemma {:induction false} MappedKeys(allocs: seq<Allocation>, ip: string)
    ensures ip in Mapped(allocs) <==> exists a :: a in allocs && a.ip == ip
    decreases |allocs|
  {
    if allocs != [] {
      var before, a := allocs[..|allocs| - 1], allocs[|allocs| - 1];
      MappedKeys(before, ip);
      assert allocs == before + [a];
    }
  }

  function OwnAt(id: nat, ip: string): Allocation -> bool { (a: Allocation) => a.serverId == Some(id) && a.ip == ip }

  /** An address is mapped to the ports of the server's allocations there, in order. */
  lemma MappingOfServer(db: Database, s: ServerRow, c: Config, ip: string)
    requires FromGet(db, s, c) || FromList(db, s, c)
    requires exists a :: a in db.allocs && a.serverId == Some(s.id) && a.ip == ip
    ensures var own := Filter(db.allocs, OwnAt(s.id, ip));
            && ip in c.mappings && |c.mappings[ip]| == |own|
            && forall j :: 0 <= j < |own| ==> c.mappings[ip][j] == own[j].port
  {
    var allocs := Filter(db.allocs, AllocationOf({s.id}));
    FilterMeaning(db.allocs, AllocationOf({s.id}));
    OwnAllocations(db, s, ip);
    MappedMeaning(allocs, ip);
    FilterTwice(db.allocs, AllocationOf({s.id}), OwnAt(s.id, ip));
    PortsMeaning(allocs, s.id, ip);
    assert allocs != [] by {
      var a :| a in db.allocs && a.serverId == Some(s.id) && a.ip == ip;
      assert a in allocs;
    }
  }

  lemma {:induction false} PortsMeaning(allocs: seq<Allocation>, id: nat, ip: string)
    requires forall a :: a in allocs ==> a.serverId == Some(id)
    ensures var own := Filter(allocs, OwnAt(id, ip));
            |Ports(allocs, ip)| == |own| && forall j :: 0 <= j < |own| ==> Ports(allocs, ip)[j] == own[j].port
    decreases |allocs|
  {
    if allocs != [] {
      var before, a := allocs[..|allocs| - 1], allocs[|allocs| - 1];
      PortsMeaning(before, id, ip);
      assert allocs == before + [a];
      FilterGrows(before, a, OwnAt(id, ip));
    }
  }

  /** The default allocation is the one the server row names, if it is the server's. */
  lemma PrimaryNamed(db: Database, s: ServerRow, c: Config, i: nat)
    requires FromGet(db, s, c) || FromList(db, s, c)
    requires i < |db.allocs| && db.allocs[i].serverId == Some(s.id) && s.allocationId == Some(db.allocs[i].id)
    requires forall j :: i < j < |db.allocs| && db.allocs[j].serverId == Some(s.id) ==> db.allocs[j].id != db.allocs[i].id
    ensures c.primary == Some((db.allocs[i].ip, db.allocs[i].port))
  {
    var rows, p := db.allocs, AllocationOf({s.id});
    var allocs, n := Filter(rows, p), |Filter(rows[..i], p)|;
    FilterAt(rows, p, i);
    FilterMeaning(rows[i + 1..], p);
    forall j | n < j < |allocs| ensures allocs[j].id != rows[i].id {
      assert allocs[j] == allocs[n + 1..][j - (n + 1)];
      assert allocs[j] in rows[i + 1..];
    }
    LastWithMeaning(allocs, rows[i].id, n);
  }

  /** Otherwise it is the server's first one. */
  lemma PrimaryFirst(db: Database, s: ServerRow, c: Config, i: nat)
    requires FromGet(db, s, c) || FromList(db, s, c)
    requires i < |db.allocs| && db.allocs[i].serverId == Some(s.id)
    requires forall j :: 0 <= j < i ==> db.allocs[j].serverId != Some(s.id)
    requires forall a :: a in db.allocs && a.serverId == Some(s.id) ==> s.allocationId != Some(a.id)
    ensures c.primary == Some((db.allocs[i].ip, db.allocs[i].port))
  {
    var rows, p := db.allocs, AllocationOf({s.id});
    FilterAt(rows, p, i);
    FilterNone(rows[..i], p);
    FilterMeaning(rows, p);
    if s.allocationId.Some? {
      LastWithNone(Filter(rows, p), s.allocationId.value);
    }
  }

  lemma {:induction false} FilterNone<T>(rows: seq<T>, p: T -> bool)
    requires forall r :: r in rows ==> !p(r)
    ensures Filter(rows, p) == []
    decreases |rows|
  {
    if rows != [] {
      FilterNone(rows[..|rows| - 1], p);
      assert rows[|rows| - 1] in rows;
    }
  }

  lemma {:induction false} LastWithMeaning(allocs: seq<Allocation>, id: nat, n: nat)
    requires n < |allocs| && allocs[n].id == id && forall j :: n < j < |allocs| ==> allocs[j].id != id
    ensures LastWith(allocs, id) == Some((allocs[n].ip, allocs[n].port))
    decreases |allocs|
  {
    if n < |allocs| - 1 {
      LastWithMeaning(allocs[..|allocs| - 1], id, n);
    }
  }

  lemma {:induction false} LastWithNone(allocs: seq<Allocation>, id: nat)
    requires forall a :: a in allocs ==> a.id != id
    ensures LastWith(allocs, id) == None
    decreases |allocs|
  {
    if allocs != [] {
      LastWithNone(allocs[..|allocs| - 1], id);
      assert allocs[|allocs| - 1] in allocs;
    }
  }

  /** A join table with a primary key over both columns. */
  ghost predicate UniqueKeys<T(!new)>(rows: seq<T>) {
    forall r :: multiset(rows)[r] <= 1
  }

  /**
   For every server `List` builds what `Get` builds: the same environment, allocations and set of mounts.
   A mount is listed twice exactly if its join rows are duplicated; without mounts the key is missing from
   the list and null in the single answer.
   */
  lemma ListAgreesWithGet(db: Database, s: ServerRow, a: Config, b: Config)
    requires FromList(db, s, a) && FromGet(db, s, b)
    ensures a.(mounts := Absent) == b.(mounts := Absent)
    ensures forall m :: m in Ids(a.mounts) <==> m in Ids(b.mounts)
    ensures multiset(Ids(a.mounts)) == multiset(Ids(b.mounts)) <==> forall m: nat :: Pairs(db, s, m) <= 1
    ensures UniqueKeys(db.mountEggs) && UniqueKeys(db.mountNodes) ==> multiset(Ids(a.mounts)) == multiset(Ids(b.mounts))
    ensures a.mounts == Absent <==> b.mounts == Null
  {
    forall m: nat ensures m in Ids(a.mounts) <==> m in Ids(b.mounts) {
      assert m in Ids(a.mounts) <==> multiset(Ids(a.mounts))[m] > 0;
      assert m in Ids(b.mounts) <==> multiset(Ids(b.mounts))[m] > 0;
    }
    forall m: nat | UniqueKeys(db.mountEggs) && UniqueKeys(db.mountNodes) ensures Pairs(db, s, m) <= 1 {
      assert multiset(db.mountEggs)[MountEgg(m, s.eggId)] <= 1 && multiset(db.mountNodes)[MountNode(m, s.nodeId)] <= 1;
    }
    if multiset(Ids(a.mounts)) == multiset(Ids(b.mounts)) {
      forall m: nat ensures Pairs(db, s, m) <= 1 {
        assert multiset(Ids(a.mounts))[m] == multiset(Ids(b.mounts))[m];
      }
    }
    SameEmpty(Ids(a.mounts), Ids(b.mounts));
  }

  lemma SameEmpty(a: seq<nat>, b: seq<nat>)
    requires forall m: nat :: m in a <==> m in b
    ensures a == [] <==> b == []
  {
    if a != [] {
      assert a[0] in a;
    }
    if b != [] {
      assert b[0] in b;
    }
  }
}
