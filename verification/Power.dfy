/**
 The power lock (locker.go) and the calls that take it (`HandlePowerAction`, power.go).

 Any number of callers run at the same time.  Each of them takes atomic steps: an operation on the lock,
 a call to the environment, or the return.  `Release` drains the lock whoever holds it.
 */
module Power {
  import opened Prelude

  datatype Action = Start | Stop | Restart | Kill | Unknown

  datatype EnvCall = CheckOffline | BeforeStart | StartProcess | WaitForStop | Terminate

  /** Where a caller stands; `holds` says that its own acquire succeeded. */
  datatype Pc = Idle | Called(action: Action, waits: bool) | Body(action: Action, holds: bool)

  datatype Event = Acquired(c: nat) | Released(c: nat) | Did(c: nat, call: EnvCall)

  datatype Sys = Sys(locked: bool, pc: map<nat, Pc>, log: seq<Event>)

  function At(s: Sys, c: nat): Pc {
    if c in s.pc then s.pc[c] else Idle
  }

  function MoveTo(s: Sys, c: nat, p: Pc): Sys {
    s.(pc := s.pc[c := p])
  }

  /** The calls to the environment an action may make. */
  function Plan(a: Action): seq<EnvCall> {
    match a
    case Start => [CheckOffline, BeforeStart, StartProcess]
    case Stop => [WaitForStop]
    case Restart => [WaitForStop, BeforeStart, StartProcess]
    case Kill => [Terminate]
    case Unknown => []
  }

  function Return(s: Sys, c: nat, holds: bool): Sys {
    if holds then Sys(false, s.pc[c := Idle], s.log + [Released(c)]) else MoveTo(s, c, Idle)
  }

  /** One atomic step of caller `c`. */
  predicate Step(s: Sys, c: nat, s': Sys) {
    match At(s, c)
    case Idle =>
      At(s', c).Called? && s' == MoveTo(s, c, At(s', c))
    case Called(a, waits) =>
      || (!s.locked && s' == Sys(true, s.pc[c := Body(a, true)], s.log + [Acquired(c)]))
      || (s.locked && a == Kill && s' == MoveTo(s, c, Body(a, false)))
      || (s.locked && a != Kill && !waits && s' == MoveTo(s, c, Idle))
      || (a != Kill && waits && s' == MoveTo(s, c, Idle))
    case Body(a, holds) =>
      || s' == Return(s, c, holds)
      || (|s'.log| == |s.log| + 1 && s'.log[|s.log|].Did? && s'.log[|s.log|].call in Plan(a)
          && s' == s.(log := s.log + [Did(c, s'.log[|s.log|].call)]))
  }

  ghost predicate Holds(s: Sys, c: nat) {
    At(s, c).Body? && At(s, c).holds
  }

  /**
   A log in which the lock changes hands properly and every call except a kill's is made by the holder
   of the lock; `holder` is who has it at the end.
   */
  ghost predicate Alternates(log: seq<Event>, holder: Option<nat>)
    decreases |log|
  {
    if log == [] then holder == None
    else
      var before := log[..|log| - 1];
      match log[|log| - 1]
      case Acquired(c) => holder == Some(c) && Alternates(before, None)
      case Released(c) => holder == None && Alternates(before, Some(c))
      case Did(c, call) => (call != Terminate ==> holder == Some(c)) && Alternates(before, holder)
  }

  ghost predicate Inv(s: Sys, holder: Option<nat>) {
    && s.locked == holder.Some?
    && (forall c: nat :: Holds(s, c) <==> holder == Some(c))
    && (forall c :: At(s, c).Body? && At(s, c).action != Kill ==> Holds(s, c))
    && Alternates(s.log, holder)
  }

  lemma LogGrows(log: seq<Event>, e: Event)
    ensures (log + [e])[..|log|] == log
  {
  }

  /** Every step of every caller keeps the invariant. */
  lemma StepKeepsInv(s: Sys, holder: Option<nat>, c: nat, s': Sys) returns (holder': Option<nat>)
    requires Inv(s, holder) && Step(s, c, s')
    ensures Inv(s', holder')
  {
    holder' := if Holds(s', c) then Some(c) else if Holds(s, c) then None else holder;
    if s'.log != s.log {
      LogGrows(s.log, s'.log[|s.log|]);
    }
    assert forall d :: d != c ==> At(s', d) == At(s, d);
  }

  /**
   `Release` relies on its callers: drained by somebody who does not hold it, the lock would let a second
   caller in beside the first.
   */
  lemma ForeignReleaseBreaksExclusion(s: Sys, c: nat, d: nat, a: Action, waits: bool)
    requires Inv(s, Some(c)) && d != c && At(s, d) == Called(a, waits)
    ensures exists s' :: Step(s.(locked := false), d, s') && Holds(s', c) && Holds(s', d)
  {
    var s' := Sys(true, s.pc[d := Body(a, true)], s.log + [Acquired(d)]);
    assert Step(s.(locked := false), d, s');
    assert Holds(s, c) && At(s', c) == At(s, c);
  }

  // ---- Runs ----

  /** A run of any number of callers: `who[i]` took the step from `states[i]` to `states[i + 1]`. */
  ghost predicate Run(states: seq<Sys>, who: seq<nat>) {
    && |states| == |who| + 1
    && states[0] == Sys(false, map[], [])
    && (forall i :: 0 <= i < |who| ==> Step(states[i], who[i], states[i + 1]))
  }

  lemma {:induction false} RunKeepsInv(states: seq<Sys>, who: seq<nat>, k: nat) returns (holder: Option<nat>)
    requires Run(states, who) && k <= |who|
    ensures Inv(states[k], holder)
  {
    if k == 0 {
      holder := None;
    } else {
      holder := RunKeepsInv(states, who, k - 1);
      holder := StepKeepsInv(states[k - 1], holder, who[k - 1], states[k]);
    }
  }

  /** In every interleaving at most one caller holds the lock, and start, stop and restart never overlap. */
  lemma MutualExclusion(states: seq<Sys>, who: seq<nat>, k: nat, c: nat, d: nat)
    requires Run(states, who) && k <= |who|
    ensures Holds(states[k], c) && Holds(states[k], d) ==> c == d
    ensures states[k].locked <==> exists e :: Holds(states[k], e)
    ensures At(states[k], c).Body? && At(states[k], d).Body? && c != d ==>
              At(states[k], c).action == Kill || At(states[k], d).action == Kill
  {
    var holder := RunKeepsInv(states, who, k);
    if holder.Some? {
      assert Holds(states[k], holder.value);
    }
  }

  /**
   From an acquire until the same caller's release nobody else acquires, releases, or calls the
   environment other than to kill.
   */
  lemma ExclusiveSection(states: seq<Sys>, who: seq<nat>, k: nat, i: nat, j: nat)
    requires Run(states, who) && k <= |who| && i < j < |states[k].log|
    requires states[k].log[i].Acquired?
    requires forall l :: i < l < j ==> states[k].log[l] != Released(states[k].log[i].c)
    ensures !states[k].log[j].Acquired?
    ensures states[k].log[j].c == states[k].log[i].c || (states[k].log[j].Did? && states[k].log[j].call == Terminate)
  {
    var holder := RunKeepsInv(states, who, k);
    SectionHolds(states[k].log, holder, i, j);
  }

  lemma {:induction false} HolderAfter(log: seq<Event>, holder: Option<nat>, n: nat) returns (h: Option<nat>)
    requires Alternates(log, holder) && n <= |log|
    ensures Alternates(log[..n], h)
    decreases |log|
  {
    if n == |log| {
      assert log[..n] == log;
      h := holder;
    } else {
      var e := log[|log| - 1];
      var before := match e case Acquired(_) => None case Released(c) => Some(c) case Did(_, _) => holder;
      h := HolderAfter(log[..|log| - 1], before, n);
      assert log[..|log| - 1][..n] == log[..n];
    }
  }

  lemma HolderIsUnique(log: seq<Event>, a: Option<nat>, b: Option<nat>)
    requires Alternates(log, a) && Alternates(log, b)
    ensures a == b
    decreases |log|
  {
    if log != [] && log[|log| - 1].Did? {
      HolderIsUnique(log[..|log| - 1], a, b);
    }
  }

  lemma {:induction false} SectionHolds(log: seq<Event>, holder: Option<nat>, i: nat, j: nat)
    requires Alternates(log, holder) && i < j < |log| && log[i].Acquired?
    requires forall l :: i < l < j ==> log[l] != Released(log[i].c)
    ensures Alternates(log[..j], Some(log[i].c))
    ensures !log[j].Acquired?
    ensures log[j].c == log[i].c || (log[j].Did? && log[j].call == Terminate)
    decreases j
  {
    var h := HolderAfter(log, holder, j + 1);
    assert log[..j + 1][..j] == log[..j];
    var before := HolderAfter(log, holder, j);
    if i == j - 1 {
      assert log[..j][..i] == log[..i];
    } else {
      SectionHolds(log, holder, i, j - 1);
      assert log[..j][..j - 1] == log[..j - 1];
      var last := log[j - 1];
      if last.Did? {
        HolderIsUnique(log[..j - 1], before, Some(log[i].c));
      }
    }
    assert before == Some(log[i].c);
    if log[j].Did? {
      HolderIsUnique(log[..j], h, before);
    } else if log[j].Acquired? {
      HolderIsUnique(log[..j], None, before);
    } else {
      HolderIsUnique(log[..j], Some(log[j].c), before);
    }
  }

  // ---- The code ----

  /** A channel with room for one value; after `Destroy` a send would panic. */
  class Locker {
    var ch: seq<bool>
    var closed: bool

    constructor ()
      ensures ch == [] && !closed
    {
      ch := [];
      closed := false;
    }

    predicate IsLocked()
      reads this
    {
      |ch| == 1
    }

    method Acquire() returns (ok: bool)
      requires |ch| <= 1 && !closed
      modifies this`ch
      ensures ok == !old(IsLocked()) && IsLocked()
    {
      if |ch| == 1 {
        return false;
      }
      ch := ch + [true];
      return true;
    }

    /**
     Where the wait of `TryAcquire` ends: the channel has room, or the context has ended.  If both are the
     case either answer may come.
     */
    method TryAcquire(expired: bool) returns (ok: bool)
      requires |ch| <= 1 && !closed && (IsLocked() ==> expired)
      modifies this`ch
      ensures ok ==> !old(IsLocked()) && IsLocked()
      ensures !ok ==> expired && ch == old(ch)
    {
      var sends: bool := *;
      if |ch| == 1 || (expired && !sends) {
        return false;
      }
      ch := ch + [true];
      return true;
    }

    /** Drains the channel, whoever filled it. */
    method Release()
      requires |ch| <= 1
      modifies this`ch
      ensures !IsLocked() && ch == []
    {
      ch := [];
    }

    method Destroy()
      requires !closed
      modifies this
      ensures closed && ch == []
    {
      ch := [];
      closed := true;
    }
  }

  datatype PowerError = ErrRestoring | ErrTransferring | ErrInstalling | ErrLocked | ErrIsRunning | ErrEnvironment | ErrUnknownAction

  /** What caller `c` itself did. */
  function Own(log: seq<Event>, c: nat): (own: seq<Event>)
    ensures log == [] ==> own == []
  {
    Filter(log, ByCaller(c))
  }

  function ByCaller(c: nat): Event -> bool { (e: Event) => e.c == c }

  lemma OwnGrows(log: seq<Event>, e: Event, c: nat)
    ensures Own(log + [e], c) == Own(log, c) + if e.c == c then [e] else []
  {
    FilterGrows(log, e, ByCaller(c));
  }

  /**
   A server's power lock together with a record of its callers.  `trace` is the run so far: whatever the
   methods do, they do it in steps of the system above, and others may step in between.
   */
  class Server {
    const powerLock: Locker
    var sys: Sys
    ghost var trace: seq<Sys>
    ghost var who: seq<nat>

    ghost predicate Valid()
      reads this, powerLock
    {
      && |powerLock.ch| <= 1 && !powerLock.closed
      && sys.locked == powerLock.IsLocked()
      && Run(trace, who) && trace[|who|] == sys
    }

    constructor ()
      ensures Valid() && fresh(powerLock) && sys == Sys(false, map[], [])
    {
      powerLock := new Locker();
      sys := Sys(false, map[], []);
      trace := [Sys(false, map[], [])];
      who := [];
    }

    /** Records the step that caller `c` just took. */
    method Record(c: nat, s': Sys)
      requires Run(trace, who) && trace[|who|] == sys && Step(sys, c, s')
      modifies this
      ensures sys == s' && trace == old(trace) + [s'] && Run(trace, who)
      ensures trace[|who|] == sys
    {
      sys := s';
      trace := trace + [s'];
      who := who + [c];
    }

    /** Any number of steps of other callers. */
    method Others(c: nat)
      requires Valid()
      modifies this, powerLock
      ensures Valid() && old(trace) <= trace
      ensures At(sys, c) == At(old(sys), c) && Own(sys.log, c) == Own(old(sys).log, c)
    {
      var n: nat :| true;
      for i := 0 to n
        invariant Valid() && old(trace) <= trace
        invariant At(sys, c) == At(old(sys), c) && Own(sys.log, c) == Own(old(sys).log, c)
      {
        var d: nat :| true;
        var s': Sys := *;
        if d != c && Step(sys, d, s') {
          Other(c, d, s');
        }
      }
    }

    method Other(c: nat, d: nat, s': Sys)
      requires Valid() && d != c && Step(sys, d, s')
      modifies this, powerLock
      ensures Valid() && old(trace) <= trace
      ensures At(sys, c) == At(old(sys), c) && Own(sys.log, c) == Own(old(sys).log, c)
    {
      if s'.log != sys.log {
        OwnGrows(sys.log, s'.log[|sys.log|], c);
      }
      Record(d, s');
      powerLock.ch := if s'.locked then [true] else [];
    }

    /**
     The attempt to take the lock.  A caller that waits lets others go on until the lock is free or its
     `patience` is at an end; everybody else gets the answer at once.
     */
    method Take(c: nat, a: Action, waits: bool, patience: nat) returns (ok: bool, waited: nat)
      requires Valid() && At(sys, c) == Called(a, waits)
      modifies this, powerLock
      ensures Valid() && old(trace) <= trace
      ensures a == Kill || !waits ==> waited == 0 && (ok <==> !old(sys).locked)
      ensures waits && a != Kill ==> waited <= patience && (!ok ==> waited == patience) && (waited > 0 ==> old(sys).locked)
      ensures ok ==> At(sys, c) == Body(a, true) && Own(sys.log, c) == Own(old(sys).log, c) + [Acquired(c)]
      ensures !ok ==> At(sys, c) == (if a == Kill then Body(a, false) else Idle) && Own(sys.log, c) == Own(old(sys).log, c)
    {
      waited := 0;
      if a != Kill && waits {
        waited := Await(c, patience);
        ok := powerLock.TryAcquire(waited == patience);
      } else {
        ok := powerLock.Acquire();
      }
      if ok {
        OwnGrows(sys.log, Acquired(c), c);
        Record(c, Sys(true, sys.pc[c := Body(a, true)], sys.log + [Acquired(c)]));
      } else {
        Record(c, MoveTo(sys, c, if a == Kill then Body(a, false) else Idle));
      }
    }

    /** Blocked on the channel while others go on. */
    method Await(c: nat, patience: nat) returns (waited: nat)
      requires Valid()
      modifies this, powerLock
      ensures Valid() && old(trace) <= trace
      ensures At(sys, c) == At(old(sys), c) && Own(sys.log, c) == Own(old(sys).log, c)
      ensures waited <= patience && (sys.locked ==> waited == patience) && (waited > 0 ==> old(sys).locked)
    {
      waited := 0;
      while powerLock.IsLocked() && waited < patience
        invariant Valid() && old(trace) <= trace && waited <= patience && (waited > 0 ==> old(sys).locked)
        invariant waited == 0 ==> sys == old(sys)
        invariant At(sys, c) == At(old(sys), c) && Own(sys.log, c) == Own(old(sys).log, c)
      {
        Others(c);
        waited := waited + 1;
      }
    }

    /** One call to the environment. */
    method Call(c: nat, call: EnvCall)
      requires Valid() && At(sys, c).Body? && call in Plan(At(sys, c).action)
      modifies this, powerLock
      ensures Valid() && old(trace) <= trace
      ensures At(sys, c) == At(old(sys), c) && Own(sys.log, c) == Own(old(sys).log, c) + [Did(c, call)]
    {
      OwnGrows(sys.log, Did(c, call), c);
      Record(c, sys.(log := sys.log + [Did(c, call)]));
      Others(c);
    }

    /** The end of a call: the deferred release, if the lock was taken. */
    method Finish(c: nat)
      requires Valid() && At(sys, c).Body?
      modifies this, powerLock
      ensures Valid() && old(trace) <= trace && At(sys, c) == Idle
      ensures Own(sys.log, c) == Own(old(sys).log, c) + if At(old(sys), c).holds then [Released(c)] else []
    {
      var holds := At(sys, c).holds;
      if holds {
        powerLock.Release();
        OwnGrows(sys.log, Released(c), c);
      }
      Record(c, Return(sys, c, holds));
    }

    /**
     `HandlePowerAction`.  `restoring`, `transferring`, `installing` are the flags checked first; `answers`
     says which calls to the environment succeed.  Others may step in before and after every call.  `took`
     says whether the lock was acquired and `made` which calls to the environment were made.
     */
    method HandlePowerAction(c: nat, a: Action, wait: int, patience: nat, restoring: bool, transferring: bool, installing: bool,
                             answers: EnvCall -> bool)
      returns (err: Option<PowerError>, waited: nat, ghost took: bool, ghost made: seq<EnvCall>)
      requires Valid() && At(sys, c) == Idle
      modifies this, powerLock
      ensures Valid() && old(trace) <= trace && At(sys, c) == Idle
      ensures Own(sys.log, c) == Own(old(sys).log, c)
                + (if took then [Acquired(c)] else []) + Calls(c, made) + (if took then [Released(c)] else [])
      ensures restoring || transferring || installing ==>
                && err == Some(if restoring then ErrRestoring else if transferring then ErrTransferring else ErrInstalling)
                && trace == old(trace) && sys == old(sys) && !took && made == []
      ensures err == Some(ErrLocked) ==> a != Kill && !took && made == [] && waited == if wait > 0 then patience else 0
      ensures !(restoring || transferring || installing) && !took && (a == Kill || wait <= 0 || patience > 0) ==>
                exists i :: |old(trace)| <= i < |trace| && trace[i].locked
      ensures !(restoring || transferring || installing) && err != Some(ErrLocked) ==>
                && (took || a == Kill)
                && match a
                   case Start =>
                     if !answers(CheckOffline) then made == [CheckOffline] && err == Some(ErrIsRunning)
                     else if !answers(BeforeStart) then made == [CheckOffline, BeforeStart] && err == Some(ErrEnvironment)
                     else made == [CheckOffline, BeforeStart, StartProcess]
                          && err == if answers(StartProcess) then None else Some(ErrEnvironment)
                   case Stop => made == [WaitForStop] && err == if answers(WaitForStop) then None else Some(ErrEnvironment)
                   case Restart =>
                     if !answers(WaitForStop) then made == [WaitForStop] && err == Some(ErrEnvironment)
                     else if !answers(BeforeStart) then made == [WaitForStop, BeforeStart] && err == Some(ErrEnvironment)
                     else made == [WaitForStop, BeforeStart, StartProcess]
                          && err == if answers(StartProcess) then None else Some(ErrEnvironment)
                   case Kill => made == [Terminate] && err == if answers(Terminate) then None else Some(ErrEnvironment)
                   case Unknown => made == [] && err == Some(ErrUnknownAction)
    {
      waited, took, made := 0, false, [];
      if restoring {
        return Some(ErrRestoring), 0, false, [];
      }
      if transferring {
        return Some(ErrTransferring), 0, false, [];
      }
      if installing {
        return Some(ErrInstalling), 0, false, [];
      }
      var locked;
      locked, waited := Enter(c, a, wait > 0, patience);
      took := locked;
      if !locked && a != Kill {
        return Some(ErrLocked), waited, false, [];
      }
      err, made := RunBody(c, a, answers);
      Finish(c);
    }

    /** From the call to the body of the action: the attempt to take the lock, with others before and after. */
    method Enter(c: nat, a: Action, waits: bool, patience: nat) returns (took: bool, waited: nat)
      requires Valid() && At(sys, c) == Idle
      modifies this, powerLock
      ensures Valid() && old(trace) <= trace
      ensures took || a == Kill ==> At(sys, c) == Body(a, took)
      ensures !took && a != Kill ==> At(sys, c) == Idle && waited == if waits then patience else 0
      ensures !took && (a == Kill || !waits || patience > 0) ==> exists i :: |old(trace)| <= i < |trace| && trace[i].locked
      ensures Own(sys.log, c) == Own(old(sys).log, c) + if took then [Acquired(c)] else []
    {
      Record(c, MoveTo(sys, c, Called(a, waits)));
      Others(c);
      ghost var now := |who|;
      took, waited := Take(c, a, waits, patience);
      Others(c);
      assert !took && (a == Kill || !waits || patience > 0) ==> trace[now].locked;
    }

    /** The switch over the action: which calls it made, and why it stopped. */
    method RunBody(c: nat, a: Action, answers: EnvCall -> bool) returns (err: Option<PowerError>, ghost made: seq<EnvCall>)
      requires Valid() && At(sys, c).Body? && At(sys, c).action == a
      modifies this, powerLock
      ensures Valid() && old(trace) <= trace && At(sys, c) == At(old(sys), c)
      ensures Own(sys.log, c) == Own(old(sys).log, c) + Calls(c, made)
      ensures Ran(a, answers, made, err)
    {
      match a {
        case Start =>
          err, made := BootAfter(c, CheckOffline, answers);
        case Stop =>
          err, made := OnlyCall(c, WaitForStop, answers);
        case Restart =>
          err, made := BootAfter(c, WaitForStop, answers);
        case Kill =>
          err, made := OnlyCall(c, Terminate, answers);
        case Unknown =>
          return Some(ErrUnknownAction), [];
      }
    }

    method OnlyCall(c: nat, call: EnvCall, answers: EnvCall -> bool) returns (err: Option<PowerError>, ghost made: seq<EnvCall>)
      requires Valid() && At(sys, c).Body? && call in Plan(At(sys, c).action)
      modifies this, powerLock
      ensures Valid() && old(trace) <= trace && At(sys, c) == At(old(sys), c)
      ensures Own(sys.log, c) == Own(old(sys).log, c) + Calls(c, made)
      ensures made == [call] && err == if answers(call) then None else Some(ErrEnvironment)
    {
      made := [call];
      Call(c, call);
      err := if answers(call) then None else Some(ErrEnvironment);
    }

    /** `first`, then the pre-boot logic, then the start of the process. */
    method BootAfter(c: nat, first: EnvCall, answers: EnvCall -> bool) returns (err: Option<PowerError>, ghost made: seq<EnvCall>)
      requires Valid() && At(sys, c).Body? && first != BeforeStart && first != StartProcess
      requires first in Plan(At(sys, c).action) && BeforeStart in Plan(At(sys, c).action) && StartProcess in Plan(At(sys, c).action)
      modifies this, powerLock
      ensures Valid() && old(trace) <= trace && At(sys, c) == At(old(sys), c)
      ensures Own(sys.log, c) == Own(old(sys).log, c) + Calls(c, made)
      ensures Booted(first, answers, made, err)
    {
      made := [first];
      Call(c, first);
      if !answers(first) {
        err := Some(if first == CheckOffline then ErrIsRunning else ErrEnvironment);
        return;
      }
      CallsGrow(c, made, BeforeStart);
      made := made + [BeforeStart];
      Call(c, BeforeStart);
      if !answers(BeforeStart) {
        err := Some(ErrEnvironment);
        return;
      }
      CallsGrow(c, made, StartProcess);
      made := made + [StartProcess];
      Call(c, StartProcess);
      err := if answers(StartProcess) then None else Some(ErrEnvironment);
    }
  }

  function Calls(c: nat, calls: seq<EnvCall>): seq<Event> {
    seq(|calls|, i requires 0 <= i < |calls| => Did(c, calls[i]))
  }

  lemma CallsGrow(c: nat, calls: seq<EnvCall>, call: EnvCall)
    ensures Calls(c, calls + [call]) == Calls(c, calls) + [Did(c, call)]
  {
  }

  /** Bringing the server up, after `first`: every call is made only if the one before succeeded. */
  ghost predicate Booted(first: EnvCall, answers: EnvCall -> bool, made: seq<EnvCall>, err: Option<PowerError>) {
    if !answers(first) then made == [first] && err == Some(if first == CheckOffline then ErrIsRunning else ErrEnvironment)
    else if !answers(BeforeStart) then made == [first, BeforeStart] && err == Some(ErrEnvironment)
    else made == [first, BeforeStart, StartProcess] && err == if answers(StartProcess) then None else Some(ErrEnvironment)
  }

  /** What each action does. */
  ghost predicate Ran(a: Action, answers: EnvCall -> bool, made: seq<EnvCall>, err: Option<PowerError>) {
    match a
    case Start => Booted(CheckOffline, answers, made, err)
    case Stop => made == [WaitForStop] && err == if answers(WaitForStop) then None else Some(ErrEnvironment)
    case Restart => Booted(WaitForStop, answers, made, err)
    case Kill => made == [Terminate] && err == if answers(Terminate) then None else Some(ErrEnvironment)
    case Unknown => made == [] && err == Some(ErrUnknownAction)
  }
}
