/**
 The sink pool (sink_pool.go) as a whole: pushes under way on any number of channels, readers, and callers
 that register, remove or close channels.

 Pushes hold the read lock of the pool until their last send is done, the other callers take the write lock.
 A caller that waits for the write lock keeps new pushes out; callers behind it have not arrived yet.  A nil
 channel receives nothing; the wait of its goroutine is left out.
 */
module SinkRuns {
  import opened Prelude
  import opened Sinks

  datatype Change = On(c: Option<nat>) | Off(c: Option<nat>) | Destroy

  /** The channels are numbered; `writer` is the caller that waits for the write lock. */
  datatype Pool = Pool(sinks: seq<Option<nat>>, closed: set<nat>, wires: map<nat, Wire>, writer: Option<Change>)

  datatype PoolStep = Ask(change: Change) | Grant | Push | At(c: nat, step: WireStep)

  ghost predicate Idle(p: Pool) {
    forall c :: c in p.wires ==> p.wires[c].pending == map[]
  }

  ghost predicate Exist(sinks: seq<Option<nat>>, wires: map<nat, Wire>) {
    forall c :: Some(c) in sinks ==> c in wires
  }

  /** Every channel that is registered exists. */
  ghost predicate Known(p: Pool) {
    && Exist(p.sinks, p.wires)
    && (p.writer.Some? && p.writer.value.On? && p.writer.value.c.Some? ==> p.writer.value.c.value in p.wires)
  }

  ghost predicate CanStep(p: Pool, s: PoolStep) {
    match s
    case Ask(change) => p.writer == None && (change.On? && change.c.Some? ==> change.c.value in p.wires)
    case Grant => p.writer.Some? && Idle(p)
    case Push => p.writer == None
    case At(c, step) => c in p.wires && step != Begin && Enabled(p.wires[c], step)
  }

  /** A send begins for every registration. */
  ghost function BeginAll(wires: map<nat, Wire>, sinks: seq<Option<nat>>): (wires': map<nat, Wire>)
    requires Exist(sinks, wires)
    ensures wires'.Keys == wires.Keys
  {
    if sinks == [] then wires
    else
      var n := |sinks| - 1;
      var w := BeginAll(wires, sinks[..n]);
      if sinks[n].Some? then w[sinks[n].value := Apply(w[sinks[n].value], Begin)] else w
  }

  function Registered(sinks: seq<Option<nat>>): set<nat> {
    set i | 0 <= i < |sinks| && sinks[i].Some? :: sinks[i].value
  }

  ghost function Next(p: Pool, s: PoolStep): Pool
    requires Known(p) && CanStep(p, s)
  {
    match s
    case Ask(change) => p.(writer := Some(change))
    case Push => p.(wires := BeginAll(p.wires, p.sinks))
    case At(c, step) => p.(wires := p.wires[c := Apply(p.wires[c], step)])
    case Grant => Changed(p, p.writer.value).(writer := None)
  }

  function Changed(p: Pool, change: Change): Pool {
    match change
    case On(c) => p.(sinks := p.sinks + [c])
    case Off(c) => p.(sinks := RemoveFirst(p.sinks, c),
                      closed := p.closed + if c.Some? && c in p.sinks then {c.value} else {})
    case Destroy => p.(sinks := [], closed := p.closed + Registered(p.sinks))
  }

  /** No channel is registered twice. */
  ghost predicate Single(sinks: seq<Option<nat>>) {
    forall i, j :: 0 <= i < j < |sinks| && sinks[i].Some? ==> sinks[i] != sinks[j]
  }

  /** The step sends to a closed channel, or closes one again. */
  ghost predicate Panics(p: Pool, s: PoolStep)
    requires CanStep(p, s)
  {
    match s
    case Ask(_) => false
    case Push => !(Registered(p.sinks) !! p.closed)
    case At(c, step) => (step.Send? || step.Handoff? || step.Resend?) && c in p.closed
    case Grant =>
      match p.writer.value
      case On(_) => false
      case Off(c) => c.Some? && c in p.sinks && c.value in p.closed
      case Destroy => !(Registered(p.sinks) !! p.closed) || !Single(p.sinks)
  }

  // ---- Closed channels ----

  /** Channels are registered once and open, and no send is under way on a closed one. */
  ghost predicate Safe(p: Pool) {
    && Single(p.sinks) && Registered(p.sinks) !! p.closed
    && forall c :: c in p.closed && c in p.wires ==> p.wires[c].pending == map[]
  }

  /** If the step registers a channel, then one that is not registered and was never closed. */
  ghost predicate RegistersNew(p: Pool, s: PoolStep)
    requires CanStep(p, s)
  {
    s == Grant && p.writer.value.On? && p.writer.value.c.Some? ==>
      p.writer.value.c !in p.sinks && p.writer.value.c.value !in p.closed
  }

  lemma SafeDoesNotPanic(p: Pool, s: PoolStep)
    requires Known(p) && Safe(p) && CanStep(p, s)
    ensures !Panics(p, s)
  {
    if s.At? && s.c in p.closed {
      assert p.wires[s.c].pending == map[];
    }
    if s == Grant && p.writer.value.Off? && p.writer.value.c in p.sinks && p.writer.value.c.Some? {
      assert p.writer.value.c.value in Registered(p.sinks);
    }
  }

  lemma RegisteredIs(sinks: seq<Option<nat>>, c: nat)
    ensures c in Registered(sinks) <==> Some(c) in sinks
  {
    if Some(c) in sinks {
      var i :| 0 <= i < |sinks| && sinks[i] == Some(c);
    }
  }

  lemma {:induction false} RemovedOnce(sinks: seq<Option<nat>>, c: Option<nat>)
    requires Single(sinks)
    ensures Single(RemoveFirst(sinks, c))
    ensures forall x :: x in RemoveFirst(sinks, c) ==> x in sinks
    ensures c.Some? ==> c !in RemoveFirst(sinks, c)
    decreases |sinks|
  {
    if sinks != [] {
      var rest := sinks[1..];
      assert forall j :: 0 <= j < |rest| ==> rest[j] == sinks[j + 1];
      if sinks[0] != c {
        RemovedOnce(rest, c);
        forall j | 0 <= j < |RemoveFirst(rest, c)| && sinks[0].Some? ensures sinks[0] != RemoveFirst(rest, c)[j] {
          assert RemoveFirst(rest, c)[j] in rest;
        }
      }
    }
  }

  lemma RemovedKnown(sinks: seq<Option<nat>>, c: Option<nat>)
    ensures forall x :: x in RemoveFirst(sinks, c) ==> x in sinks
  {
    RemoveFirstTakesOne(sinks, c);
    forall x | x in RemoveFirst(sinks, c) ensures x in sinks {
      assert x in multiset(RemoveFirst(sinks, c));
      assert x in multiset(sinks);
    }
  }

  lemma StillKnown(p: Pool, s: PoolStep)
    requires Known(p) && CanStep(p, s)
    ensures Known(Next(p, s))
  {
    if s == Grant && p.writer.value.Off? {
      RemovedKnown(p.sinks, p.writer.value.c);
    }
  }

  /** A safe pool stays safe exactly when a channel that is registered is new. */
  lemma StepKeepsSafe(p: Pool, s: PoolStep)
    requires Known(p) && Safe(p) && CanStep(p, s)
    ensures Safe(Next(p, s)) <==> RegistersNew(p, s)
  {
    match s {
      case Ask(_) =>
      case Push => PushKeepsSafe(p);
      case At(c, step) =>
        if c in p.closed {
          assert p.wires[c].pending == map[];
        }
      case Grant =>
        match p.writer.value {
          case On(c) => OnKeepsSafe(p, c);
          case Off(c) => OffKeepsSafe(p, c);
          case Destroy =>
        }
    }
  }

  lemma OnKeepsSafe(p: Pool, c: Option<nat>)
    requires Safe(p)
    ensures Safe(p.(sinks := p.sinks + [c], writer := None)) <==> (c.Some? ==> c !in p.sinks && c.value !in p.closed)
  {
    var sinks := p.sinks + [c];
    assert sinks[|p.sinks|] == c;
    if c.Some? && c in p.sinks {
      var i :| 0 <= i < |p.sinks| && p.sinks[i] == c;
      assert sinks[i] == sinks[|p.sinks|];
    }
    forall x ensures x in Registered(sinks) <==> x in Registered(p.sinks) || c == Some(x) {
      RegisteredIs(sinks, x);
      RegisteredIs(p.sinks, x);
    }
  }

  lemma OffKeepsSafe(p: Pool, c: Option<nat>)
    requires Safe(p) && Idle(p)
    ensures Safe(Changed(p, Off(c)).(writer := None))
  {
    RemovedOnce(p.sinks, c);
    forall x | x in Registered(RemoveFirst(p.sinks, c)) ensures x in Registered(p.sinks) && c != Some(x) {
      RegisteredIs(RemoveFirst(p.sinks, c), x);
      RegisteredIs(p.sinks, x);
    }
  }

  lemma PushKeepsSafe(p: Pool)
    requires Known(p) && Safe(p)
    ensures Safe(p.(wires := BeginAll(p.wires, p.sinks)))
  {
    forall c | c in p.closed && c in p.wires ensures BeginAll(p.wires, p.sinks)[c] == p.wires[c] {
      RegisteredIs(p.sinks, c);
      NotBegun(p.wires, p.sinks, c);
    }
  }

  lemma {:induction false} NotBegun(wires: map<nat, Wire>, sinks: seq<Option<nat>>, c: nat)
    requires Exist(sinks, wires)
    requires c in wires && Some(c) !in sinks
    ensures BeginAll(wires, sinks)[c] == wires[c]
    decreases |sinks|
  {
    if sinks != [] {
      NotBegun(wires, sinks[..|sinks| - 1], c);
    }
  }

  // ---- Runs ----

  /** Any interleaving of pushes, readers and changes. */
  ghost predicate Chain(states: seq<Pool>, steps: seq<PoolStep>) {
    && |states| == |steps| + 1
    && (forall i :: 0 <= i < |states| ==> Known(states[i]))
    && (forall i :: 0 <= i < |steps| ==> CanStep(states[i], steps[i]) && states[i + 1] == Next(states[i], steps[i]))
  }

  /** The empty pool, with channels that nobody has used yet. */
  ghost predicate Empty(p: Pool) {
    p.sinks == [] && p.closed == {} && p.writer == None && forall c :: c in p.wires ==> p.wires[c] == Fresh(p.wires[c].cap)
  }

  ghost predicate PoolRun(states: seq<Pool>, steps: seq<PoolStep>) {
    Chain(states, steps) && Empty(states[0])
  }

  /** A run is safe throughout exactly when every channel it registers is new at the time. */
  lemma {:induction false} RunIsSafe(states: seq<Pool>, steps: seq<PoolStep>, k: nat)
    requires PoolRun(states, steps) && k <= |steps|
    ensures (forall i :: 0 <= i <= k ==> Safe(states[i])) <==> forall i :: 0 <= i < k ==> RegistersNew(states[i], steps[i])
  {
    if k == 0 {
      assert Safe(states[0]);
    } else {
      RunIsSafe(states, steps, k - 1);
      assert (forall i :: 0 <= i <= k ==> Safe(states[i])) <==> (forall i :: 0 <= i <= k - 1 ==> Safe(states[i])) && Safe(states[k]);
      if Safe(states[k - 1]) {
        StepKeepsSafe(states[k - 1], steps[k - 1]);
      }
    }
  }

  /** No step of such a run sends to a closed channel or closes one again. */
  lemma RunNeverPanics(states: seq<Pool>, steps: seq<PoolStep>, k: nat)
    requires PoolRun(states, steps) && k < |steps|
    requires forall i :: 0 <= i < |steps| ==> RegistersNew(states[i], steps[i])
    ensures !Panics(states[k], steps[k])
  {
    RunIsSafe(states, steps, k);
    SafeDoesNotPanic(states[k], steps[k]);
  }

  /** The pool after `c` was removed. */
  function AfterOff(p: Pool, c: nat): Pool {
    Changed(p, Off(Some(c)))
  }

  /** Nothing less will do: in any other state the next push panics, or the one after removing some channel. */
  lemma SafeMeaning(p: Pool)
    requires Known(p) && Idle(p) && p.writer == None
    ensures Safe(p) <==> !Panics(p, Push) && forall c {:trigger AfterOff(p, c)} :: !Panics(AfterOff(p, c), Push)
  {
    if Safe(p) {
      forall c {:trigger AfterOff(p, c)} ensures !Panics(AfterOff(p, c), Push) {
        OffKeepsSafe(p, Some(c));
      }
    } else if Registered(p.sinks) !! p.closed {
      var i, j :| 0 <= i < j < |p.sinks| && p.sinks[i].Some? && p.sinks[i] == p.sinks[j];
      var c := p.sinks[i].value;
      RegisteredTwice(p.sinks, i, j);
      RegisteredIs(RemoveFirst(p.sinks, Some(c)), c);
      assert c in Registered(AfterOff(p, c).sinks) && c in AfterOff(p, c).closed;
      assert Panics(AfterOff(p, c), Push);
    }
  }

  lemma RegisteredTwice(sinks: seq<Option<nat>>, i: nat, j: nat)
    requires i < j < |sinks| && sinks[i] == sinks[j]
    ensures sinks[i] in RemoveFirst(sinks, sinks[i])
  {
    var c := sinks[i];
    RemoveFirstTakesOne(sinks, c);
    assert multiset(sinks)[c] == multiset(sinks[..j])[c] + multiset(sinks[j..])[c] by {
      assert sinks == sinks[..j] + sinks[j..];
    }
    assert sinks[..j][i] == c && sinks[j..][0] == c;
    assert c in multiset(sinks[..j]) && c in multiset(sinks[j..]);
  }

  /** A listener that reuses its channel: registered, removed and registered again, it makes the next push panic. */
  lemma RegisteredAgain(cap: nat) returns (states: seq<Pool>, steps: seq<PoolStep>)
    ensures PoolRun(states, steps)
    ensures CanStep(states[|steps|], Push) && Panics(states[|steps|], Push)
    ensures Single(states[|steps|].sinks)
  {
    var c := Some(0);
    states, steps := [Pool([], {}, map[0 := Fresh(cap)], None)], [];
    states, steps := ChangeOnce(states, steps, On(c));
    states, steps := ChangeOnce(states, steps, Off(c));
    assert states[|steps|].sinks == [] && states[|steps|].closed == {0};
    states, steps := ChangeOnce(states, steps, On(c));
    assert states[|steps|].sinks == [c];
    RegisteredIs([c], 0);
  }

  lemma OneMore(states: seq<Pool>, steps: seq<PoolStep>, s: PoolStep) returns (states': seq<Pool>, steps': seq<PoolStep>)
    requires Chain(states, steps) && CanStep(states[|steps|], s)
    ensures Chain(states', steps') && states'[0] == states[0] && steps' == steps + [s] && states <= states'
    ensures states'[|steps'|] == Next(states[|steps|], s)
  {
    StillKnown(states[|steps|], s);
    states', steps' := states + [Next(states[|steps|], s)], steps + [s];
  }

  /** Nothing is under way: the change is asked for and made. */
  lemma ChangeOnce(states: seq<Pool>, steps: seq<PoolStep>, change: Change) returns (states': seq<Pool>, steps': seq<PoolStep>)
    requires Chain(states, steps) && CanStep(states[|steps|], Ask(change)) && Idle(states[|steps|])
    ensures Chain(states', steps') && states'[0] == states[0] && Idle(states'[|steps'|])
    ensures states'[|steps'|] == Changed(states[|steps|], change)
    ensures steps' == steps + [Ask(change), Grant] && states <= states'
    ensures states'[|steps| + 1] == states[|steps|].(writer := Some(change))
  {
    states', steps' := OneMore(states, steps, Ask(change));
    states', steps' := OneMore(states', steps', Grant);
  }

  // ---- Each channel by itself ----

  /** What happens to one channel of a pool is a run of that channel. */
  lemma {:induction false} ChannelRun(states: seq<Pool>, steps: seq<PoolStep>, k: nat, c: nat)
    returns (wires: seq<Wire>, moves: seq<WireStep>)
    requires PoolRun(states, steps) && k <= |steps| && c in states[0].wires
    ensures c in states[k].wires && WireRun(wires, moves) && wires[0] == states[0].wires[c]
    ensures wires[|moves|] == states[k].wires[c]
  {
    if k == 0 {
      wires, moves := [states[0].wires[c]], [];
    } else {
      wires, moves := ChannelRun(states, steps, k - 1, c);
      match steps[k - 1] {
        case Push =>
          wires, moves := Begun(states[k - 1].wires, states[k - 1].sinks, c, wires, moves);
        case At(d, step) =>
          if d == c {
            wires, moves := OneStepMore(wires, moves, step);
          }
        case _ =>
      }
    }
  }

  lemma {:induction false} Begun(wires: map<nat, Wire>, sinks: seq<Option<nat>>, c: nat, was: seq<Wire>, done: seq<WireStep>)
    returns (run: seq<Wire>, moves: seq<WireStep>)
    requires Exist(sinks, wires) && c in wires && WireRun(was, done) && was[|done|] == wires[c]
    ensures WireRun(run, moves) && run[0] == was[0] && run[|moves|] == BeginAll(wires, sinks)[c]
    decreases |sinks|
  {
    run, moves := was, done;
    if sinks != [] {
      run, moves := Begun(wires, sinks[..|sinks| - 1], c, was, done);
      if sinks[|sinks| - 1] == Some(c) {
        run, moves := OneStepMore(run, moves, Begin);
      }
    }
  }

  // ---- Callers that wait for the pushes ----

  /** A starved push holds the read lock for ever, and with it whoever waits for the write lock and every later push. */
  lemma {:induction false} WaitsForever(states: seq<Pool>, steps: seq<PoolStep>, k: nat, c: nat)
    requires Chain(states, steps) && k <= |steps|
    requires states[0].writer.Some? && c in states[0].wires && Starved(states[0].wires[c])
    ensures states[k].writer == states[0].writer && states[k].sinks == states[0].sinks
    ensures c in states[k].wires && Starved(states[k].wires[c])
    ensures !CanStep(states[k], Grant) && !CanStep(states[k], Push)
  {
    if k > 0 {
      WaitsForever(states, steps, k - 1, c);
      if steps[k - 1].At? && steps[k - 1].c == c {
        StarvedStays(states[k - 1].wires[c], steps[k - 1].step);
      }
    }
    var id :| In(states[k].wires[c], id, Evicting);
    assert states[k].wires[c].pending != map[];
  }

  lemma LiftOne(p: Pool, c: nat, wires: seq<Wire>, moves: seq<WireStep>) returns (states: seq<Pool>, steps: seq<PoolStep>)
    requires Known(p) && c in p.wires && Continues(wires, moves) && wires[0] == p.wires[c]
    ensures Chain(states, steps) && states[0] == p
    ensures states[|steps|] == p.(wires := p.wires[c := wires[|moves|]])
  {
    states := seq(|wires|, i requires 0 <= i < |wires| => p.(wires := p.wires[c := wires[i]]));
    steps := seq(|moves|, i requires 0 <= i < |moves| => At(c, moves[i]));
    assert p.wires[c := p.wires[c]] == p.wires;
    forall i | 0 <= i < |steps| ensures CanStep(states[i], steps[i]) && states[i + 1] == Next(states[i], steps[i]) {
      assert p.wires[c := wires[i]][c := wires[i + 1]] == p.wires[c := wires[i + 1]];
    }
  }

  lemma Joined(a: seq<Pool>, s: seq<PoolStep>, b: seq<Pool>, t: seq<PoolStep>) returns (states: seq<Pool>, steps: seq<PoolStep>)
    requires Chain(a, s) && Chain(b, t) && a[|s|] == b[0]
    ensures Chain(states, steps) && states[0] == a[0] && states[|steps|] == b[|t|] && steps == s + t
    ensures forall i :: 0 <= i < |s| ==> states[i] == a[i]
    ensures forall i :: 0 <= i < |t| ==> states[|s| + i] == b[i]
  {
    states, steps := a + b[1..], s + t;
    assert forall i :: |s| <= i < |states| ==> states[i] == b[i - |s|];
    forall i | 0 <= i < |steps| ensures CanStep(states[i], steps[i]) && states[i + 1] == Next(states[i], steps[i]) {
      assert i >= |s| ==> steps[i] == t[i - |s|];
    }
  }

  /** The pushes on the channels `todo` come to their end, one channel after the other. */
  lemma {:induction false} Release(p: Pool, todo: set<nat>) returns (states: seq<Pool>, steps: seq<PoolStep>)
    requires Known(p) && todo <= p.wires.Keys
    requires forall c :: c in p.wires && c !in todo ==> p.wires[c].pending == map[]
    requires forall c :: c in todo ==> Sound(p.wires[c]) && !Starved(p.wires[c])
    ensures Chain(states, steps) && states[0] == p
    ensures Idle(states[|steps|]) && states[|steps|].writer == p.writer
    decreases todo
  {
    if todo == {} {
      states, steps := [p], [];
    } else {
      var c :| c in todo;
      var wires, moves := Finish(p.wires[c]);
      states, steps := LiftOne(p, c, wires, moves);
      var more, after := Release(states[|steps|], todo - {c});
      states, steps := Joined(states, steps, more, after);
    }
  }

  /** Whoever waits for the write lock can still get it exactly when no channel is starved. */
  lemma GrantMeaning(p: Pool)
    requires Known(p) && p.writer.Some? && forall c :: c in p.wires ==> Sound(p.wires[c])
    ensures (exists states: seq<Pool>, steps: seq<PoolStep> :: Chain(states, steps) && states[0] == p && CanStep(states[|steps|], Grant))
            <==> forall c :: c in p.wires ==> !Starved(p.wires[c])
  {
    if c :| c in p.wires && Starved(p.wires[c]) {
      forall states: seq<Pool>, steps: seq<PoolStep> | Chain(states, steps) && states[0] == p ensures !CanStep(states[|steps|], Grant) {
        WaitsForever(states, steps, |steps|, c);
      }
    } else {
      var states, steps := Release(p, p.wires.Keys);
      assert CanStep(states[|steps|], Grant);
    }
  }

  /** The pool whose only registration is channel 0. */
  function OneSink(w: Wire): Pool {
    Pool([Some(0)], {}, map[0 := w], None)
  }

  /** With one registered channel the steps of the pool are those of the channel. */
  lemma LiftRun(wires: seq<Wire>, moves: seq<WireStep>) returns (states: seq<Pool>, steps: seq<PoolStep>)
    requires WireRun(wires, moves)
    ensures Chain(states, steps) && states[0] == OneSink(wires[0]) && states[|steps|] == OneSink(wires[|moves|])
    ensures Grant !in steps
  {
    states := seq(|wires|, i requires 0 <= i < |wires| => OneSink(wires[i]));
    steps := seq(|moves|, i requires 0 <= i < |moves| => if moves[i] == Begin then Push else At(0, moves[i]));
    forall i | 0 <= i < |steps| ensures CanStep(states[i], steps[i]) && states[i + 1] == Next(states[i], steps[i]) {
      OneBegins(wires[i]);
    }
  }

  lemma OneBegins(w: Wire)
    ensures Exist([Some(0)], map[0 := w]) && BeginAll(map[0 := w], [Some(0)]) == map[0 := Apply(w, Begin)]
  {
    assert [Some(0)][..0] == [];
    assert BeginAll(map[0 := w], [Some(0)][..0]) == map[0 := w];
  }

  /**
   For every capacity: one listener, one push at a time, no send that gives up too early; the push ends up
   starved, and when the listener then wants to leave, no call on the pool ever returns again.
   */
  lemma LeavingCanBlock(cap: nat) returns (states: seq<Pool>, steps: seq<PoolStep>)
    requires cap > 0
    ensures PoolRun(states, steps) && forall i :: 0 <= i < |steps| ==> RegistersNew(states[i], steps[i])
    ensures states[|steps|].writer == Some(Off(Some(0))) && states[|steps|].sinks == [Some(0)]
    ensures 0 in states[|steps|].wires && Starved(states[|steps|].wires[0])
  {
    var wires, moves := EvictionCanBlock(cap);
    RunConserves(wires, moves, |moves|);
    BlockedIsStarved(wires[|moves|]);
    var begun, ops := [Pool([], {}, map[0 := Fresh(cap)], None)], [];
    begun, ops := ChangeOnce(begun, ops, On(Some(0)));
    assert RegistersNew(begun[1], ops[1]);
    var more, after := LiftRun(wires, moves);
    states, steps := Joined(begun, ops, more, after);
    states, steps := OneMore(states, steps, Ask(Off(Some(0))));
  }
}
