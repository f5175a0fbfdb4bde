/**
 The process state of a server (environment/docker) and the crash detection that watches it
 (`OnStateChange`, server.go; `handleServerCrash`, crash.go).

 Docker's answers are parameters.  Several operations may be under way at the same time: between any two
 steps of one, others may change the state.  An event is handled before the next one is published.
 */
module Environment {
  import opened Prelude

  datatype ProcState = Offline | Starting | Running | Stopping

  datatype Source = StartOp | StopOp | DestroyOp | CommandOp | StartupDone | StreamEnd

  /** A call of `SetState`, or a look at the state, by one operation. */
  datatype Event = Set(src: Source, id: nat, to: ProcState) | Saw(src: Source, id: nat, to: ProcState)

  predicate Up(s: ProcState) {
    s == Starting || s == Running
  }

  function StateAfter(trace: seq<Event>): ProcState {
    if trace == [] then Offline else trace[|trace| - 1].to
  }

  /** The tracked state goes from starting or running to offline. */
  predicate CrashAt(trace: seq<Event>, j: nat)
    requires j < |trace|
  {
    trace[j].to == Offline && Up(StateAfter(trace[..j]))
  }

  /** A crash is a change to offline right after starting or running. */
  lemma CrashAtMeaning(trace: seq<Event>, j: nat)
    requires j < |trace|
    ensures CrashAt(trace, j) <==> trace[j].to == Offline && j > 0 && trace[j - 1].to in {Starting, Running}
  {
  }

  function Crashes(trace: seq<Event>): nat {
    if trace == [] then 0
    else Crashes(trace[..|trace| - 1]) + if CrashAt(trace, |trace| - 1) then 1 else 0
  }

  /** The operation behind `trace[j]` knew the state to be stopping or offline at its event before, `i`. */
  ghost predicate CalmBefore(trace: seq<Event>, i: nat, j: nat)
    requires i < j < |trace|
  {
    && trace[i].id == trace[j].id && !Up(trace[i].to)
    && (forall k :: i < k < j ==> trace[k].id != trace[j].id)
  }

  /** Apart from the end of the stream, nobody sets offline without having set stopping or seen offline. */
  ghost predicate Disciplined(trace: seq<Event>) {
    forall j :: 0 <= j < |trace| && trace[j].Set? && trace[j].to == Offline && trace[j].src != StreamEnd ==>
      exists i :: 0 <= i < j && CalmBefore(trace, i, j)
  }

  /** Somebody else brought the state back up between `i` and `j`, and nobody took it down again. */
  ghost predicate RevivedBetween(trace: seq<Event>, i: nat, j: nat)
    requires i < j < |trace|
  {
    exists k :: i < k < j && trace[k].Set? && Up(trace[k].to) && trace[k].id != trace[j].id && StaysUp(trace, k, j)
  }

  /** Every change after `k` and before `j` is to starting or running. */
  ghost predicate StaysUp(trace: seq<Event>, k: nat, j: nat)
    requires k < j < |trace|
  {
    forall l :: k < l < j && trace[l].Set? ==> Up(trace[l].to)
  }

  /** A look at the state reports what it is. */
  ghost predicate Truthful(trace: seq<Event>) {
    forall j :: 0 <= j < |trace| && trace[j].Saw? ==> trace[j].to == StateAfter(trace[..j])
  }

  /** An operation other than the end of a stream sets the state offline. */
  predicate TakesDown(e: Event) {
    e.Set? && e.to == Offline && e.src != StreamEnd
  }

  /** A stream ends while the server is starting or running. */
  predicate StreamCrash(trace: seq<Event>, j: nat)
    requires j < |trace|
  {
    trace[j].Set? && trace[j].to == Offline && trace[j].src == StreamEnd && Up(StateAfter(trace[..j]))
  }

  lemma {:induction false} UpCameFrom(trace: seq<Event>, i: nat, j: nat, m: nat) returns (k: nat)
    requires Truthful(trace) && i < m <= j < |trace| && !Up(trace[i].to) && Up(StateAfter(trace[..m]))
    requires forall l :: m <= l < j && trace[l].Set? ==> Up(trace[l].to)
    ensures i < k < j && trace[k].Set? && Up(trace[k].to) && StaysUp(trace, k, j)
    decreases m
  {
    k := m - 1;
    assert StateAfter(trace[..m]) == trace[m - 1].to;
    if trace[k].Saw? {
      k := UpCameFrom(trace, i, j, k);
    }
  }

  lemma {:induction false} UpUntil(trace: seq<Event>, k: nat, j: nat, m: nat)
    requires Truthful(trace) && k < m <= j < |trace| && Up(trace[k].to) && StaysUp(trace, k, j)
    ensures Up(StateAfter(trace[..m]))
    decreases m
  {
    assert StateAfter(trace[..m]) == trace[m - 1].to;
    if m - 1 > k {
      UpUntil(trace, k, j, m - 1);
    }
  }

  /**
   An operation that knew the server to be stopping or offline at `i` and sets it offline at `j` counts as a
   crash exactly when somebody else brought the server back up in between and it stayed up.
   */
  lemma OvertakenMeaning(trace: seq<Event>, i: nat, j: nat)
    requires Truthful(trace) && i < j < |trace| && CalmBefore(trace, i, j)
    requires trace[j].Set? && trace[j].to == Offline
    ensures CrashAt(trace, j) <==> RevivedBetween(trace, i, j)
  {
    if CrashAt(trace, j) {
      var k := UpCameFrom(trace, i, j, j);
      assert trace[k].id != trace[j].id;
    }
    if RevivedBetween(trace, i, j) {
      var k :| i < k < j && trace[k].Set? && Up(trace[k].to) && trace[k].id != trace[j].id && StaysUp(trace, k, j);
      UpUntil(trace, k, j, j);
    }
  }

  /** Some operation that takes the server down was overtaken by one that left it up. */
  ghost predicate Overtaken(trace: seq<Event>, j: nat)
    requires j < |trace|
  {
    TakesDown(trace[j]) && exists i :: 0 <= i < j && CalmBefore(trace, i, j) && RevivedBetween(trace, i, j)
  }

  /**
   The crash handler fires exactly at the end of a stream in starting or running, and when an operation
   that takes the server down was overtaken.
   */
  lemma CrashMeaning(trace: seq<Event>, j: nat)
    requires Disciplined(trace) && Truthful(trace) && j < |trace|
    ensures CrashAt(trace, j) <==> StreamCrash(trace, j) || Overtaken(trace, j)
    ensures StreamCrash(trace, j) <==>
              trace[j].Set? && trace[j].src == StreamEnd && trace[j].to == Offline && j > 0 && trace[j - 1].to in {Starting, Running}
  {
    if trace[j].Saw? {
      assert trace[j].to == StateAfter(trace[..j]);
    } else if TakesDown(trace[j]) {
      var i :| 0 <= i < j && CalmBefore(trace, i, j);
      OvertakenMeaning(trace, i, j);
      forall h | 0 <= h < j && CalmBefore(trace, h, j) && RevivedBetween(trace, h, j) ensures CrashAt(trace, j) {
        OvertakenMeaning(trace, h, j);
      }
    }
  }

  /** The crashes of a run are its streams that end in starting or running exactly when nothing was overtaken. */
  lemma CrashesAreStreamEnds(trace: seq<Event>)
    requires Disciplined(trace) && Truthful(trace)
    ensures (forall j :: 0 <= j < |trace| ==> (CrashAt(trace, j) <==> StreamCrash(trace, j)))
            <==> (forall j :: 0 <= j < |trace| ==> !Overtaken(trace, j))
  {
    forall j | 0 <= j < |trace| ensures CrashAt(trace, j) <==> StreamCrash(trace, j) || Overtaken(trace, j) {
      CrashMeaning(trace, j);
    }
    forall j | 0 <= j < |trace| ensures !(StreamCrash(trace, j) && Overtaken(trace, j)) {
    }
  }

  /**
   Such interference exists: a line that marks the server as started is read while it is starting, and
   acted upon after a termination has set stopping; the termination then counts as a crash.
   */
  lemma OvertakenTermination()
    ensures exists trace: seq<Event>, j :: 0 <= j < |trace| && Disciplined(trace) && Truthful(trace) && CrashAt(trace, j) && trace[j].src == StopOp
  {
    var t := [Set(StartOp, 0, Starting), Saw(StartupDone, 1, Starting), Set(StopOp, 2, Stopping),
              Set(StartupDone, 1, Running), Set(StopOp, 2, Offline)];
    assert t[..1] == [t[0]] && t[..4][3] == t[3];
    assert CalmBefore(t, 2, 4);
    assert Disciplined(t) && Truthful(t) && CrashAt(t, 4);
  }

  /** How many streams ended while the server was starting or running. */
  function StreamCrashes(trace: seq<Event>): nat {
    if trace == [] then 0
    else StreamCrashes(trace[..|trace| - 1]) + if StreamCrash(trace, |trace| - 1) then 1 else 0
  }

  lemma TraceGrows(trace: seq<Event>, e: Event)
    requires Truthful(trace) && (e.Saw? ==> e.to == StateAfter(trace))
    ensures Truthful(trace + [e])
    ensures Crashes(trace + [e]) == Crashes(trace) + if e.to == Offline && Up(StateAfter(trace)) then 1 else 0
    ensures StreamCrashes(trace + [e]) == StreamCrashes(trace) +
              if e.Set? && e.src == StreamEnd && e.to == Offline && Up(StateAfter(trace)) then 1 else 0
  {
    var t := trace + [e];
    assert t[..|trace|] == trace;
    assert forall j {:trigger t[j]} :: 0 <= j < |trace| ==> t[..j] == trace[..j];
  }

  /** May the operation `e.id` take this step after `trace`? */
  predicate Fits(trace: seq<Event>, e: Event) {
    e.Set? && e.to == Offline && e.src != StreamEnd ==> !Up(LastOf(trace, e.id))
  }

  /** What the operation `id` last set or saw; `Running` stands for nothing. */
  function LastOf(trace: seq<Event>, id: nat): ProcState {
    if trace == [] then Running
    else if trace[|trace| - 1].id == id then trace[|trace| - 1].to
    else LastOf(trace[..|trace| - 1], id)
  }

  lemma {:induction false} LastOfIs(trace: seq<Event>, id: nat) returns (i: nat)
    requires !Up(LastOf(trace, id))
    ensures i < |trace| && trace[i].id == id && trace[i].to == LastOf(trace, id)
    ensures forall k :: i < k < |trace| ==> trace[k].id != id
  {
    i := |trace| - 1;
    if trace[i].id != id {
      i := LastOfIs(trace[..i], id);
    }
  }

  lemma FitsKeepsDiscipline(trace: seq<Event>, e: Event)
    requires Disciplined(trace) && Fits(trace, e)
    ensures Disciplined(trace + [e])
  {
    var t := trace + [e];
    forall j | 0 <= j < |t| && t[j].Set? && t[j].to == Offline && t[j].src != StreamEnd
      ensures exists i :: 0 <= i < j && CalmBefore(t, i, j)
    {
      if j < |trace| {
        var i :| 0 <= i < j && CalmBefore(trace, i, j);
        assert CalmBefore(t, i, j);
      } else {
        var i := LastOfIs(trace, e.id);
        assert CalmBefore(t, i, j);
      }
    }
  }

  /** The events of the operation `id`. */
  function Own(trace: seq<Event>, id: nat): (own: seq<Event>)
    ensures trace == [] ==> own == []
  {
    Filter(trace, ByOperation(id))
  }

  function ByOperation(id: nat): Event -> bool { (e: Event) => e.id == id }

  lemma OwnGrows(trace: seq<Event>, e: Event, id: nat)
    ensures Own(trace + [e], id) == Own(trace, id) + if e.id == id then [e] else []
    ensures LastOf(trace + [e], id) == if e.id == id then e.to else LastOf(trace, id)
  {
    FilterGrows(trace, e, ByOperation(id));
    assert (trace + [e])[..|trace|] == trace;
  }

  /** From `was` to `trace` the operation `id` did `events`, and nothing else happened if it was alone. */
  ghost predicate Did(alone: bool, was: seq<Event>, trace: seq<Event>, id: nat, events: seq<Event>) {
    && Own(trace, id) == Own(was, id) + events
    && (alone ==> trace == was + events)
  }

  lemma DidTwice(alone: bool, t0: seq<Event>, t1: seq<Event>, t2: seq<Event>, id: nat, a: seq<Event>, b: seq<Event>)
    requires Did(alone, t0, t1, id, a) && Did(alone, t1, t2, id, b)
    ensures Did(alone, t0, t2, id, a + b)
  {
    assert Own(t0, id) + a + b == Own(t0, id) + (a + b);
    assert t0 + a + b == t0 + (a + b);
  }

  /** Nothing was done at first. */
  lemma DidLater(alone: bool, t0: seq<Event>, t1: seq<Event>, t2: seq<Event>, id: nat, b: seq<Event>)
    requires Did(alone, t0, t1, id, []) && Did(alone, t1, t2, id, b)
    ensures Did(alone, t0, t2, id, b)
  {
    assert Own(t0, id) + [] == Own(t0, id) && t0 + [] == t0;
  }

  // ---- The code ----

  datatype Inspect = Gone | InspectFailed | Found(running: bool)

  datatype Answer = Ok | NotFound | Failed

  datatype StopConfig = StopSignal | StopCommand | StopNative

  /** What a termination does, after it saw `seen` if the container does not run. */
  function Terminated(id: nat, inspect: Inspect, ok: bool, seen: ProcState): seq<Event> {
    match inspect
    case Found(true) => [Set(StopOp, id, Stopping)] + if ok then [Set(StopOp, id, Offline)] else []
    case Found(false) =>
      [Saw(StopOp, id, seen)] + if seen != Offline then [Set(StopOp, id, Stopping), Set(StopOp, id, Offline)] else []
    case _ => []
  }

  /** Marking a server as stopping, after it was seen in state `seen`. */
  function Marked(id: nat, seen: ProcState): seq<Event> {
    [Saw(StopOp, id, seen)] + if seen != Offline then [Set(StopOp, id, Stopping)] else []
  }

  /** The command was sent, or could not be; or Docker was asked, and a container that is gone means offline. */
  ghost predicate Stopped(id: nat, config: StopConfig, written: bool, stopped: Answer, ok: bool, more: seq<Event>) {
    || (config == StopCommand && more == [Set(StopOp, id, Stopping)] && ok == written)
    || (config == StopCommand && more == [] && !ok)
    || (more == (if stopped == NotFound then [Set(StopOp, id, Offline)] else []) && ok == (stopped != Failed))
  }

  /** The container is gone or not running at some poll, after being seen running only, or is killed after all of them. */
  ghost predicate StopsInTime(polls: seq<Inspect>, lastKill: Answer) {
    exists i :: 0 <= i <= |polls| && (forall j :: 0 <= j < i ==> polls[j] == Found(true)) && EndsAt(polls, lastKill, i)
  }

  ghost predicate EndsAt(polls: seq<Inspect>, lastKill: Answer, i: nat)
    requires i <= |polls|
  {
    if i < |polls| then polls[i] == Gone || polls[i] == Found(false) else lastKill != Failed
  }

  /** The first poll that does not see it running decides, without one the last kill. */
  lemma StopsInTimeMeaning(polls: seq<Inspect>, lastKill: Answer, i: nat)
    requires i <= |polls| && (forall j :: 0 <= j < i ==> polls[j] == Found(true)) && (i < |polls| ==> polls[i] != Found(true))
    ensures StopsInTime(polls, lastKill) <==> if i < |polls| then polls[i] != InspectFailed else lastKill != Failed
  {
    assert EndsAt(polls, lastKill, i) <==> if i < |polls| then polls[i] != InspectFailed else lastKill != Failed;
    if StopsInTime(polls, lastKill) {
      var k :| 0 <= k <= |polls| && (forall j :: 0 <= j < k ==> polls[j] == Found(true)) && EndsAt(polls, lastKill, k);
      assert k == i;
    }
  }

  class Environment {
    const alone: bool    // no other operation is under way
    var st: ProcState
    var stream: bool     // attached to the container's streams
    var tracked: ProcState    // the state the server last saw
    var crashes: nat     // how often the crash handler was started
    var trace: seq<Event>    // every call of SetState so far

    ghost predicate Valid()
      reads this
    {
      && st == tracked == StateAfter(trace)
      && Truthful(trace) && Disciplined(trace)
      && crashes == Crashes(trace)
      && (alone ==> crashes == StreamCrashes(trace))
    }

    /** What an operation did. */
    twostate predicate Took(id: nat, events: seq<Event>)
      reads this
    {
      Did(alone, old(trace), trace, id, events)
    }

    constructor (alone: bool)
      ensures Valid() && st == Offline && !stream && this.alone == alone
    {
      this.alone := alone;
      st, tracked, stream := Offline, Offline, false;
      crashes, trace := 0, [];
    }

    /** `OnStateChange`: called with the event of a change, before anything else happens. */
    method OnStateChange()
      modifies this`tracked, this`crashes
      ensures tracked == st
      ensures crashes == old(crashes) + if old(tracked) in {Starting, Running} && st == Offline then 1 else 0
    {
      var prevState := tracked;
      tracked := st;
      if Up(prevState) && st == Offline {
        crashes := crashes + 1;
      }
    }

    method SetState(src: Source, id: nat, state: ProcState)
      requires Valid() && Fits(trace, Set(src, id, state))
      requires alone && state == Offline && src != StreamEnd ==> !Up(st)
      modifies this`st, this`tracked, this`crashes, this`trace
      ensures Valid() && st == state && trace == old(trace) + [Set(src, id, state)]
      ensures Took(id, [Set(src, id, state)]) && LastOf(trace, id) == state
      ensures crashes == old(crashes) + if state == Offline && old(st) in {Starting, Running} then 1 else 0
    {
      ghost var e := Set(src, id, state);
      TraceGrows(trace, e);
      FitsKeepsDiscipline(trace, e);
      OwnGrows(trace, e, id);
      if st != state {
        st := state;
        OnStateChange();
      }
      trace := trace + [Set(src, id, state)];
    }

    /** Reads the state. */
    method State(src: Source, id: nat) returns (state: ProcState)
      requires Valid()
      modifies this`trace
      ensures Valid() && state == st && trace == old(trace) + [Saw(src, id, st)]
      ensures Took(id, [Saw(src, id, st)]) && LastOf(trace, id) == st
    {
      ghost var e := Saw(src, id, st);
      TraceGrows(trace, e);
      FitsKeepsDiscipline(trace, e);
      OwnGrows(trace, e, id);
      trace := trace + [Saw(src, id, st)];
      state := st;
    }

    /** Any number of steps of other operations. */
    method Others(id: nat)
      requires Valid()
      modifies this`st, this`tracked, this`crashes, this`trace, this`stream
      ensures Valid() && Took(id, []) && LastOf(trace, id) == LastOf(old(trace), id)
      ensures alone ==> st == old(st) && crashes == old(crashes) && stream == old(stream)
    {
      if alone {
        return;
      }
      var n: nat :| true;
      for i := 0 to n
        invariant Valid() && Took(id, []) && LastOf(trace, id) == LastOf(old(trace), id)
      {
        var e: Event := *;
        if e.id != id && Fits(trace, e) {
          OwnGrows(trace, e, id);
          if e.Set? {
            SetState(e.src, e.id, e.to);
          } else if e.to == st {
            var _ := State(e.src, e.id);
          }
        }
        stream := *;
      }
    }

    /** The first `SetState` of an operation, and whatever others do after it. */
    method SetFirst(src: Source, id: nat, state: ProcState)
      requires Valid() && state != Offline
      modifies this`st, this`tracked, this`crashes, this`trace, this`stream
      ensures Valid() && LastOf(trace, id) == state && Took(id, [Set(src, id, state)])
      ensures alone ==> st == state && stream == old(stream) && crashes == old(crashes)
    {
      SetState(src, id, state);
      Others(id);
    }

    /** The next `SetState` of an operation, after whatever others did meanwhile. */
    method SetNext(src: Source, id: nat, state: ProcState)
      requires Valid() && Fits(trace, Set(src, id, state))
      requires alone && state == Offline && src != StreamEnd ==> !Up(st)
      modifies this`st, this`tracked, this`crashes, this`trace, this`stream
      ensures Valid() && st == state && LastOf(trace, id) == state && Took(id, [Set(src, id, state)])
      ensures alone ==> stream == old(stream) && crashes == old(crashes) + if state == Offline && Up(old(st)) then 1 else 0
    {
      Others(id);
      SetState(src, id, state);
    }

    /** `Attach`: nothing to do when attached already. */
    method Attach(attached: bool) returns (ok: bool)
      modifies this`stream
      ensures ok <==> old(stream) || attached
      ensures stream == ok
    {
      if stream {
        return true;
      }
      stream := attached;
      ok := attached;
    }

    /** The deferred end of the goroutine that reads the container's output. */
    method StreamEnds(id: nat)
      requires Valid()
      modifies this`st, this`tracked, this`crashes, this`trace, this`stream
      ensures Valid() && Took(id, [Set(StreamEnd, id, Offline)]) && !stream
      ensures alone ==> st == Offline && crashes == old(crashes) + if old(st) in {Starting, Running} then 1 else 0
    {
      SetState(StreamEnd, id, Offline);
      Others(id);
      stream := false;
    }

    /** A console line that marks the server as started (`onConsoleOutput`). */
    method SeesStartupLine(id: nat)
      requires Valid()
      modifies this`st, this`tracked, this`crashes, this`trace, this`stream
      ensures Valid()
      ensures Took(id, [Saw(StartupDone, id, old(st))] + if old(st) == Starting then [Set(StartupDone, id, Running)] else [])
      ensures alone ==> st == (if old(st) == Starting then Running else old(st)) && crashes == old(crashes)
    {
      ghost var was := trace;
      var s := State(StartupDone, id);
      ghost var now := trace;
      if s == Starting {
        SetNext(StartupDone, id, Running);
        DidTwice(alone, was, now, trace, id, [Saw(StartupDone, id, s)], [Set(StartupDone, id, Running)]);
      }
    }

    /** Stopping, then offline: what every operation does that ends the server on purpose. */
    method StopThenOffline(src: Source, id: nat)
      requires Valid() && src != StreamEnd
      modifies this`st, this`tracked, this`crashes, this`trace, this`stream
      ensures Valid() && Took(id, [Set(src, id, Stopping), Set(src, id, Offline)])
      ensures alone ==> st == Offline && crashes == old(crashes)
    {
      SetFirst(src, id, Stopping);
      SetState(src, id, Offline);
    }

    /** `Start`: `truncated`, `built`, `attached`, `started` say which of its steps succeed. */
    method Start(id: nat, inspect: Inspect, truncated: bool, built: bool, attached: bool, started: bool) returns (ok: bool)
      requires Valid()
      modifies this`st, this`tracked, this`crashes, this`trace, this`stream
      ensures Valid()
      ensures inspect.InspectFailed? || (inspect == Found(false) && !truncated) ==> !ok && Took(id, [])
      ensures inspect == Found(true) ==> Took(id, [Set(StartOp, id, Running)])
      ensures inspect.Gone? || (inspect == Found(false) && truncated) ==>
                Took(id, [Set(StartOp, id, Starting)] + if ok then [] else [Set(StartOp, id, Stopping), Set(StartOp, id, Offline)])
      ensures ok && inspect != Found(true) ==> built && started
      ensures alone ==>
                && crashes == old(crashes)
                && (ok ==> st == (if inspect == Found(true) then Running else Starting) && stream)
                && (inspect == Found(true) ==> (ok <==> old(stream) || attached))
                && (inspect.Gone? || (inspect == Found(false) && truncated) ==>
                      (ok <==> built && (old(stream) || attached) && started) && (!ok ==> st == Offline))
    {
      if inspect.InspectFailed? {
        return false;
      }
      if inspect == Found(false) && !truncated {
        return false;
      }
      ghost var was := trace;
      Others(id);
      ghost var now := trace;
      if inspect == Found(true) {
        SetFirst(StartOp, id, Running);
        DidLater(alone, was, now, trace, id, [Set(StartOp, id, Running)]);
        ok := Attach(attached);
        return;
      }
      ok := Boot(id, built, attached, started);
      DidLater(alone, was, now, trace, id,
               [Set(StartOp, id, Starting)] + if ok then [] else [Set(StartOp, id, Stopping), Set(StartOp, id, Offline)]);
    }

    /** The part of `Start` that brings up a container. */
    method Boot(id: nat, built: bool, attached: bool, started: bool) returns (ok: bool)
      requires Valid()
      modifies this`st, this`tracked, this`crashes, this`trace, this`stream
      ensures Valid()
      ensures Took(id, [Set(StartOp, id, Starting)] + if ok then [] else [Set(StartOp, id, Stopping), Set(StartOp, id, Offline)])
      ensures ok ==> built && started
      ensures alone ==> crashes == old(crashes) && if ok then st == Starting && stream else st == Offline
      ensures alone ==> (ok <==> built && (old(stream) || attached) && started)
    {
      ghost var was := trace;
      SetFirst(StartOp, id, Starting);
      ghost var now := trace;
      ok := BootSteps(built, attached, started);
      if !ok {
        // Stopping first, so that a failed start does not count as a crash.
        StopThenOffline(StartOp, id);
        DidTwice(alone, was, now, trace, id, [Set(StartOp, id, Starting)], [Set(StartOp, id, Stopping), Set(StartOp, id, Offline)]);
      }
    }

    /** Build the container, attach to it, start it. */
    method BootSteps(built: bool, attached: bool, started: bool) returns (ok: bool)
      modifies this`stream
      ensures ok <==> built && (old(stream) || attached) && started
      ensures ok ==> stream
    {
      if !built {
        return false;
      }
      ok := Attach(attached);
      if ok {
        ok := started;
      }
    }

    /** `Terminate`: `polls` are the answers while waiting, `lastKill` the one after the time limit. */
    method Terminate(id: nat, inspect: Inspect, kill: Answer, polls: seq<Inspect>, lastKill: Answer)
      returns (ok: bool, ghost seen: ProcState)
      requires Valid()
      modifies this`st, this`tracked, this`crashes, this`trace, this`stream
      ensures Valid()
      ensures inspect == Found(true) ==> Took(id, [Set(StopOp, id, Stopping)] + if ok then [Set(StopOp, id, Offline)] else [])
      ensures inspect == Found(false) ==>
                ok && Took(id, [Saw(StopOp, id, seen)] + if seen != Offline then [Set(StopOp, id, Stopping), Set(StopOp, id, Offline)] else [])
      ensures !inspect.Found? ==> Took(id, []) && ok == inspect.Gone?
      ensures inspect == Found(true) ==> (ok <==> kill != Failed && StopsInTime(polls, lastKill))
      ensures alone ==> crashes == old(crashes) && (ok && inspect.Found? ==> st == Offline)
    {
      seen := Offline;
      match inspect {
        case Gone => return true, seen;
        case InspectFailed => return false, seen;
        case Found(running) =>
          if !running {
            seen := Settle(id);
            return true, seen;
          }
      }
      ghost var was := trace;
      Others(id);
      ghost var now := trace;
      ok := KillAndWait(id, kill, polls, lastKill);
      DidLater(alone, was, now, trace, id, Terminated(id, inspect, ok, seen));
    }

    /** The part of `Terminate` for a container that is there and does not run. */
    method Settle(id: nat) returns (seen: ProcState)
      requires Valid()
      modifies this`st, this`tracked, this`crashes, this`trace, this`stream
      ensures Valid()
      ensures Took(id, [Saw(StopOp, id, seen)] + if seen != Offline then [Set(StopOp, id, Stopping), Set(StopOp, id, Offline)] else [])
      ensures alone ==> crashes == old(crashes) && st == Offline && seen == old(st)
    {
      ghost var was := trace;
      seen := State(StopOp, id);
      ghost var now := trace;
      SettleFrom(id, seen);
      DidTwice(alone, was, now, trace, id, [Saw(StopOp, id, seen)],
               if seen != Offline then [Set(StopOp, id, Stopping), Set(StopOp, id, Offline)] else []);
    }

    method SettleFrom(id: nat, seen: ProcState)
      requires Valid() && (alone ==> seen == st)
      modifies this`st, this`tracked, this`crashes, this`trace, this`stream
      ensures Valid() && Took(id, if seen != Offline then [Set(StopOp, id, Stopping), Set(StopOp, id, Offline)] else [])
      ensures alone ==> crashes == old(crashes) && st == Offline
    {
      ghost var was := trace;
      Others(id);
      ghost var now := trace;
      if seen != Offline {
        StopThenOffline(StopOp, id);
        DidLater(alone, was, now, trace, id, [Set(StopOp, id, Stopping), Set(StopOp, id, Offline)]);
      }
    }

    /** The part of `Terminate` for a running container: signal it, poll it, kill it after the time limit. */
    method KillAndWait(id: nat, kill: Answer, polls: seq<Inspect>, lastKill: Answer) returns (ok: bool)
      requires Valid()
      modifies this`st, this`tracked, this`crashes, this`trace, this`stream
      ensures Valid()
      ensures Took(id, [Set(StopOp, id, Stopping)] + if ok then [Set(StopOp, id, Offline)] else [])
      ensures ok <==> kill != Failed && StopsInTime(polls, lastKill)
      ensures alone ==> crashes == old(crashes) && st == if ok then Offline else Stopping
    {
      ghost var was := trace;
      SetFirst(StopOp, id, Stopping);
      ghost var now := trace;
      if kill == Failed {
        return false;
      }
      ok := AwaitStop(id, polls, lastKill);
      DidTwice(alone, was, now, trace, id, [Set(StopOp, id, Stopping)], if ok then [Set(StopOp, id, Offline)] else []);
    }

    /** The polling loop of `Terminate`, and the kill at the time limit. */
    method AwaitStop(id: nat, polls: seq<Inspect>, lastKill: Answer) returns (ok: bool)
      requires Valid() && LastOf(trace, id) == Stopping
      requires alone ==> st == Stopping
      modifies this`st, this`tracked, this`crashes, this`trace, this`stream
      ensures Valid() && Took(id, if ok then [Set(StopOp, id, Offline)] else [])
      ensures ok <==> StopsInTime(polls, lastKill)
      ensures alone ==> crashes == old(crashes) && st == if ok then Offline else Stopping
    {
      for i := 0 to |polls|
        invariant forall j :: 0 <= j < i ==> polls[j] == Found(true)
        invariant Valid() && Took(id, []) && LastOf(trace, id) == Stopping
        invariant alone ==> crashes == old(crashes) && st == Stopping
      {
        Others(id);
        match polls[i] {
          case InspectFailed => return false;
          case Found(true) =>
          case _ =>
            assert EndsAt(polls, lastKill, i);
            SetState(StopOp, id, Offline);
            return true;
        }
      }
      if lastKill == Failed {
        return false;
      }
      assert EndsAt(polls, lastKill, |polls|);
      SetState(StopOp, id, Offline);
      return true;
    }

    /** `SendCommand`: the configured stop command marks the server as stopping. */
    method SendCommand(src: Source, id: nat, isStop: bool, written: bool) returns (ok: bool)
      requires Valid()
      modifies this`st, this`tracked, this`crashes, this`trace, this`stream
      ensures Valid() && Took(id, if old(stream) && isStop then [Set(src, id, Stopping)] else [])
      ensures ok <==> old(stream) && written
      ensures alone ==> crashes == old(crashes) && stream == old(stream)
      ensures alone ==> st == if old(stream) && isStop then Stopping else old(st)
    {
      if !stream {
        return false;
      }
      if isStop {
        SetNext(src, id, Stopping);
      }
      Others(id);
      ok := written;
    }

    /** `Stop`, by signal, by command, or by Docker; `more` is what it did after marking the server as stopping. */
    method Stop(id: nat, config: StopConfig, inspect: Inspect, kill: Answer, polls: seq<Inspect>, lastKill: Answer,
                written: bool, stopped: Answer) returns (ok: bool, ghost seen: ProcState, ghost more: seq<Event>)
      requires Valid()
      modifies this`st, this`tracked, this`crashes, this`trace, this`stream
      ensures Valid()
      ensures config == StopSignal ==> Took(id, Terminated(id, inspect, ok, seen))
      ensures config == StopSignal ==>
                (ok <==> inspect.Gone? || inspect == Found(false) || (inspect == Found(true) && kill != Failed && StopsInTime(polls, lastKill)))
      ensures config != StopSignal ==> Took(id, Marked(id, seen) + more) && Stopped(id, config, written, stopped, ok, more)
      ensures alone ==> crashes == old(crashes)
      ensures alone && config == StopSignal && ok && inspect.Found? ==> st == Offline
      ensures alone && config == StopCommand && old(stream) ==> st == Stopping && ok == written
      ensures alone && config != StopSignal && !(config == StopCommand && old(stream)) ==>
                && (ok <==> stopped != Failed)
                && st == (if old(st) == Offline || stopped == NotFound then Offline else Stopping)
                && stream == (old(stream) && stopped != NotFound)
    {
      more := [];
      if config == StopSignal {
        ok, seen := Terminate(id, inspect, kill, polls, lastKill);
        return;
      }
      ghost var was := trace;
      seen := MarkStopping(id);
      ghost var now := trace;
      ok, more := StopMarked(id, config, written, stopped);
      DidTwice(alone, was, now, trace, id, Marked(id, seen), more);
    }

    /** The part of `Stop` for a server that is marked as stopping, or was offline anyway. */
    method StopMarked(id: nat, config: StopConfig, written: bool, stopped: Answer) returns (ok: bool, ghost more: seq<Event>)
      requires Valid() && config != StopSignal && !Up(LastOf(trace, id)) && (alone ==> !Up(st))
      modifies this`st, this`tracked, this`crashes, this`trace, this`stream
      ensures Valid() && Took(id, more) && Stopped(id, config, written, stopped, ok, more)
      ensures alone && config == StopCommand && old(stream) ==> st == Stopping && ok == written && crashes == old(crashes)
      ensures alone && !(config == StopCommand && old(stream)) ==>
                && (ok <==> stopped != Failed) && crashes == old(crashes)
                && st == (if stopped == NotFound then Offline else old(st))
                && stream == (old(stream) && stopped != NotFound)
    {
      more := [];
      ghost var was := trace;
      if stream && config == StopCommand {
        Others(id);
        ghost var now := trace;
        more := if stream then [Set(StopOp, id, Stopping)] else [];
        ok := SendCommand(StopOp, id, true, written);
        DidLater(alone, was, now, trace, id, more);
        return;
      }
      Others(id);
      if stopped == NotFound {
        stream := false;
        Others(id);
        ghost var now := trace;
        more := [Set(StopOp, id, Offline)];
        SetState(StopOp, id, Offline);
        DidLater(alone, was, now, trace, id, more);
      }
      ok := stopped != Failed;
    }

    /** A server that is offline already is not set back to stopping. */
    method MarkStopping(id: nat) returns (seen: ProcState)
      requires Valid()
      modifies this`st, this`tracked, this`crashes, this`trace, this`stream
      ensures Valid() && !Up(LastOf(trace, id))
      ensures Took(id, [Saw(StopOp, id, seen)] + if seen != Offline then [Set(StopOp, id, Stopping)] else [])
      ensures alone ==> crashes == old(crashes) && st == (if old(st) == Offline then Offline else Stopping) && stream == old(stream)
    {
      ghost var was := trace;
      seen := State(StopOp, id);
      ghost var now := trace;
      MarkFrom(id, seen);
      DidTwice(alone, was, now, trace, id, [Saw(StopOp, id, seen)], if seen != Offline then [Set(StopOp, id, Stopping)] else []);
    }

    method MarkFrom(id: nat, seen: ProcState)
      requires Valid() && LastOf(trace, id) == seen && (alone ==> seen == st)
      modifies this`st, this`tracked, this`crashes, this`trace, this`stream
      ensures Valid() && !Up(LastOf(trace, id)) && Took(id, if seen != Offline then [Set(StopOp, id, Stopping)] else [])
      ensures alone ==> crashes == old(crashes) && st == (if seen == Offline then Offline else Stopping) && stream == old(stream)
    {
      ghost var was := trace;
      Others(id);
      ghost var now := trace;
      if seen != Offline {
        SetFirst(StopOp, id, Stopping);
        DidLater(alone, was, now, trace, id, [Set(StopOp, id, Stopping)]);
      }
    }

    /** `Destroy`. */
    method Destroy(id: nat, removed: Answer) returns (ok: bool)
      requires Valid()
      modifies this`st, this`tracked, this`crashes, this`trace, this`stream
      ensures Valid() && Took(id, [Set(DestroyOp, id, Stopping), Set(DestroyOp, id, Offline)])
      ensures ok <==> removed in {Ok, NotFound}
      ensures alone ==> st == Offline && crashes == old(crashes)
    {
      StopThenOffline(DestroyOp, id);
      ok := removed != Failed;
    }
  }
}
