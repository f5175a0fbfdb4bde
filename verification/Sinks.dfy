/**
 The pool of console sinks (sink_pool.go).  `Push` never waits for a slow reader for long: a channel that
 stays full gives up its oldest message.
 */
module Sinks {
  import opened Prelude

  // ---- One channel, one push at a time ----

  /** What a push leaves in a channel of capacity `cap`; without capacity the message is skipped. */
  function Ring<T>(buf: seq<T>, cap: nat, m: T): seq<T> {
    if |buf| < cap then buf + [m]
    else if buf == [] then buf
    else buf[1..] + [m]
  }

  /** The same message pushed `n` times. */
  function Rings<T>(buf: seq<T>, cap: nat, m: T, n: nat): seq<T> {
    if n == 0 then buf else Ring(Rings(buf, cap, m, n - 1), cap, m)
  }

  datatype Move<T> = Pushed(m: T) | Received

  function After<T>(moves: seq<Move<T>>, cap: nat): (buf: seq<T>)
    ensures |buf| <= cap
  {
    if moves == [] then []
    else
      var before := After(moves[..|moves| - 1], cap);
      match moves[|moves| - 1]
      case Pushed(m) => Ring(before, cap, m)
      case Received => if before == [] then [] else before[1..]
  }

  function Messages<T>(moves: seq<Move<T>>): seq<T> {
    if moves == [] then []
    else Messages(moves[..|moves| - 1]) + match moves[|moves| - 1] case Pushed(m) => [m] case Received => []
  }

  ghost predicate IsSuffix<T(!new)>(s: seq<T>, t: seq<T>) {
    |s| <= |t| && s == t[|t| - |s|..]
  }

  /** Whenever it is read, a channel with room holds the latest messages, in order and without a gap. */
  lemma {:induction false} HoldsSuffix<T(!new)>(moves: seq<Move<T>>, cap: nat)
    requires cap > 0
    ensures IsSuffix(After(moves, cap), Messages(moves))
    decreases |moves|
  {
    if moves != [] {
      HoldsSuffix(moves[..|moves| - 1], cap);
    }
  }

  /** Unread, it holds exactly the last `cap` of them. */
  lemma {:induction false} UnreadHoldsLast<T(!new)>(moves: seq<Move<T>>, cap: nat)
    requires cap > 0 && forall i :: 0 <= i < |moves| ==> moves[i].Pushed?
    ensures |Messages(moves)| == |moves| && |After(moves, cap)| == Min(cap, |moves|)
    ensures After(moves, cap) == Messages(moves)[|moves| - Min(cap, |moves|)..]
    decreases |moves|
  {
    UnreadIsFull(moves, cap);
    HoldsSuffix(moves, cap);
    var buf, sent := After(moves, cap), Messages(moves);
    assert IsSuffix(buf, sent) && |sent| - |buf| == |moves| - Min(cap, |moves|);
  }

  lemma {:induction false} UnreadIsFull<T>(moves: seq<Move<T>>, cap: nat)
    requires cap > 0 && forall i :: 0 <= i < |moves| ==> moves[i].Pushed?
    ensures |Messages(moves)| == |moves| && |After(moves, cap)| == Min(cap, |moves|)
    decreases |moves|
  {
    if moves != [] {
      UnreadIsFull(moves[..|moves| - 1], cap);
    }
  }

  // ---- The pool ----

  class Channel {
    const cap: nat
    var buf: seq<string>
    var closed: bool

    constructor (cap: nat)
      ensures this.cap == cap && buf == [] && !closed
    {
      this.cap := cap;
      buf, closed := [], false;
    }
  }

  function RemoveFirst<T(==)>(s: seq<T>, c: T): seq<T> {
    if s == [] then []
    else if s[0] == c then s[1..]
    else [s[0]] + RemoveFirst(s[1..], c)
  }

  lemma {:induction false} RemoveFirstAt<T>(s: seq<T>, c: T, i: nat)
    requires i <= |s| && c !in s[..i] && (i < |s| ==> s[i] == c)
    ensures RemoveFirst(s, c) == if i < |s| then s[..i] + s[i + 1..] else s
    decreases |s|
  {
    if i > 0 {
      assert c !in s[1..][..i - 1] by {
        assert forall j :: 0 <= j < i - 1 ==> s[1..][j] == s[..i][j + 1];
      }
      assert s[0] == s[..i][0];
      var rest := s[1..];
      RemoveFirstAt(rest, c, i - 1);
      assert RemoveFirst(s, c) == [s[0]] + RemoveFirst(rest, c);
      assert i < |s| ==> [s[0]] + (rest[..i - 1] + rest[i..]) == s[..i] + s[i + 1..];
    }
  }

  /** One registration of `c` less, if there is one, and nobody else's. */
  lemma RemoveFirstTakesOne<T>(s: seq<T>, c: T)
    ensures multiset(RemoveFirst(s, c)) == multiset(s) - multiset{c}
    ensures c in RemoveFirst(s, c) <==> multiset(s)[c] > 1
  {
    OneLess(s, c);
    assert c in RemoveFirst(s, c) <==> c in multiset(RemoveFirst(s, c));
  }

  lemma {:induction false} OneLess<T>(s: seq<T>, c: T)
    ensures multiset(RemoveFirst(s, c)) == multiset(s) - multiset{c}
    decreases |s|
  {
    if s != [] {
      assert s == [s[0]] + s[1..];
      HeadCounts(s[0], s[1..]);
      if s[0] != c {
        OneLess(s[1..], c);
        HeadCounts(s[0], RemoveFirst(s[1..], c));
      }
    }
  }

  lemma HeadCounts<T>(x: T, s: seq<T>)
    ensures multiset([x] + s) == multiset{x} + multiset(s)
  {
  }

  lemma OthersKept<T>(s: seq<T>, i: nat)
    requires i < |s|
    ensures forall d :: d in s[..i] + s[i + 1..] ==> d in s
    ensures forall d :: d in s && d != s[i] ==> d in s[..i] + s[i + 1..]
  {
    assert s == s[..i] + [s[i]] + s[i + 1..];
  }

  lemma CountsOneMore<T>(s: seq<T>, i: nat)
    requires i < |s|
    ensures multiset(s[..i + 1]) == multiset(s[..i]) + multiset{s[i]}
  {
    assert s[..i + 1] == s[..i] + [s[i]];
  }

  /** No channel is listed twice. */
  ghost predicate Once(s: seq<Channel?>) {
    forall i, j :: 0 <= i < j < |s| && s[i] != null ==> s[i] != s[j]
  }

  lemma StillOnce(s: seq<Channel?>, i: nat)
    requires i < |s| && Once(s)
    ensures Once(s[..i] + s[i + 1..])
    ensures s[i] != null ==> s[i] !in s[..i] + s[i + 1..]
  {
    var r := s[..i] + s[i + 1..];
    assert forall j :: 0 <= j < |r| ==> r[j] == s[if j < i then j else j + 1];
  }

  lemma {:induction false} OnceIsOne<T>(s: seq<T>, c: T)
    requires c in s && forall i, j :: 0 <= i < j < |s| && s[i] == c ==> s[i] != s[j]
    ensures multiset(s)[c] == 1
  {
    var k :| 0 <= k < |s| && s[k] == c;
    assert s == s[..k] + [s[k]] + s[k + 1..];
    assert c !in s[..k] && c !in s[k + 1..];
  }

  class SinkPool {
    var sinks: seq<Channel?>

    /** A push would reach no closed channel. */
    ghost predicate AllOpen()
      reads this, sinks
    {
      forall c :: c in sinks && c != null ==> !c.closed
    }

    ghost predicate RegisteredOnce()
      reads this
    {
      Once(sinks)
    }

    ghost predicate Safe()
      reads this, sinks
    {
      AllOpen() && RegisteredOnce()
    }

    constructor ()
      ensures sinks == [] && Safe()
    {
      sinks := [];
    }

    /** The pool stays safe exactly when the channel is new to it and was not closed before. */
    method On(c: Channel?)
      modifies this
      ensures sinks == old(sinks) + [c]
      ensures old(Safe()) ==> (Safe() <==> c == null || (c !in old(sinks) && !c.closed))
    {
      sinks := sinks + [c];
      assert c in sinks && sinks[|sinks| - 1] == c;
      if c != null && c in old(sinks) {
        var i :| 0 <= i < |old(sinks)| && old(sinks)[i] == c;
        assert sinks[i] == c;
      }
    }

    /** Removes the first registration of `c` and closes it; closing twice would panic. */
    method Off(c: Channel?)
      requires c != null && c in sinks ==> !c.closed
      modifies this, c
      ensures sinks == RemoveFirst(old(sinks), c)
      ensures c != null ==> c.closed == (old(c.closed) || c in old(sinks)) && c.buf == old(c.buf)
      ensures old(AllOpen()) ==> (AllOpen() <==> c == null || c !in sinks)
      ensures old(Safe()) ==> Safe() && (c != null ==> c !in sinks)
    {
      for i := 0 to |sinks|
        invariant sinks == old(sinks) && c !in sinks[..i]
      {
        if c != sinks[i] {
          continue;
        }
        RemoveFirstAt(sinks, c, i);
        assert sinks[i] in sinks;
        sinks := sinks[..i] + sinks[i + 1..];
        OthersKept(old(sinks), i);
        if Once(old(sinks)) {
          StillOnce(old(sinks), i);
        }
        if c != null {
          c.closed := true;
        }
        return;
      }
      RemoveFirstAt(sinks, c, |sinks|);
      assert sinks[..|sinks|] == sinks;
    }

    /** Closes every channel and forgets them. */
    method Destroy()
      requires RegisteredOnce() && AllOpen()
      modifies this, sinks
      ensures sinks == [] && Safe()
      ensures forall c :: c in old(sinks) && c != null ==> c.closed && c.buf == old(c.buf)
    {
      for i := 0 to |sinks|
        invariant sinks == old(sinks)
        invariant forall j :: 0 <= j < |sinks| && sinks[j] != null ==> sinks[j].closed == (j < i) && sinks[j].buf == old(sinks[j].buf)
      {
        var c := sinks[i];
        if c != null {
          c.closed := true;
        }
      }
      sinks := [];
    }

    /**
     One message for every registration of every sink; the sends to different channels do not touch each
     other.  A closed channel would panic.
     */
    method Push(data: string)
      requires AllOpen()
      modifies sinks
      ensures AllOpen()
      ensures forall c :: c in sinks && c != null ==> c.buf == Rings(old(c.buf), c.cap, data, multiset(sinks)[c])
      ensures RegisteredOnce() ==> forall c :: c in sinks && c != null ==> c.buf == Ring(old(c.buf), c.cap, data)
    {
      Deliver(data);
      if RegisteredOnce() {
        forall c | c in sinks && c != null ensures multiset(sinks)[c] == 1 {
          OnceIsOne(sinks, c);
        }
      }
    }

    /** The sends, one after the other. */
    method Deliver(data: string)
      requires AllOpen()
      modifies sinks
      ensures AllOpen()
      ensures forall c :: c in sinks && c != null ==> c.buf == Rings(old(c.buf), c.cap, data, multiset(sinks)[c])
    {
      for i := 0 to |sinks|
        invariant AllOpen()
        invariant forall c :: c in sinks && c != null ==> c.buf == Rings(old(c.buf), c.cap, data, multiset(sinks[..i])[c])
      {
        CountsOneMore(sinks, i);
        if sinks[i] != null {
          Offer(sinks[i], data);
        }
      }
      assert sinks[..|sinks|] == sinks;
    }

    /** The goroutine for one channel, when nobody reads from the channel meanwhile. */
    method Offer(c: Channel, data: string)
      requires !c.closed
      modifies c`buf
      ensures c.buf == Ring(old(c.buf), c.cap, data)
    {
      if |c.buf| < c.cap {
        c.buf := c.buf + [data];
        return;
      }
      // The timeout: nothing to evict from an empty channel.
      if |c.buf| == 0 {
        return;
      }
      c.buf := c.buf[1..];
      c.buf := c.buf + [data];
    }
  }

  // ---- One channel, step by step ----

  datatype Phase = Sending | TimedOut | Evicting | Resending

  /**
   A channel while goroutines push to it and a reader takes from it.  Messages are numbered in the order in
   which their pushes begin.  A goroutine that is late can find room and its timeout at once, and takes either.
   */
  datatype Wire = Wire(cap: nat, buf: seq<nat>, received: seq<nat>, evicted: seq<nat>, skipped: seq<nat>,
                       pending: map<nat, Phase>, next: nat)

  datatype WireStep = Begin | Send(id: nat) | Handoff(id: nat) | Timeout(id: nat) | TestLength(id: nat)
    | Evict(id: nat) | Resend(id: nat) | Receive

  function Fresh(cap: nat): Wire {
    Wire(cap, [], [], [], [], map[], 0)
  }

  predicate In(w: Wire, id: nat, p: Phase) {
    id in w.pending && w.pending[id] == p
  }

  predicate Enabled(w: Wire, s: WireStep) {
    match s
    case Begin => true
    case Send(id) => In(w, id, Sending) && |w.buf| < w.cap
    case Handoff(id) => In(w, id, Sending) && w.cap == 0
    case Timeout(id) => In(w, id, Sending)
    case TestLength(id) => In(w, id, TimedOut)
    case Evict(id) => In(w, id, Evicting) && w.buf != []
    case Resend(id) => In(w, id, Resending) && |w.buf| < w.cap
    case Receive => w.buf != []
  }

  function Apply(w: Wire, s: WireStep): Wire
    requires Enabled(w, s)
  {
    match s
    case Begin => w.(pending := w.pending[w.next := Sending], next := w.next + 1)
    case Send(id) => w.(buf := w.buf + [id], pending := w.pending - {id})
    case Handoff(id) => w.(received := w.received + [id], pending := w.pending - {id})
    case Timeout(id) => w.(pending := w.pending[id := TimedOut])
    case TestLength(id) =>
      if w.buf == [] then w.(skipped := w.skipped + [id], pending := w.pending - {id})
      else w.(pending := w.pending[id := Evicting])
    case Evict(id) => w.(buf := w.buf[1..], evicted := w.evicted + [w.buf[0]], pending := w.pending[id := Resending])
    case Resend(id) => w.(buf := w.buf + [id], pending := w.pending - {id})
    case Receive => w.(buf := w.buf[1..], received := w.received + [w.buf[0]])
  }

  function Places(w: Wire, id: nat): nat {
    multiset(w.buf)[id] + multiset(w.received)[id] + multiset(w.evicted)[id] + multiset(w.skipped)[id]
    + if id in w.pending then 1 else 0
  }

  /** The channel is not overfull, and without capacity nothing is ever evicted. */
  ghost predicate Sound(w: Wire) {
    && |w.buf| <= w.cap
    && (w.cap == 0 ==> forall id :: id in w.pending ==> w.pending[id] == Sending || w.pending[id] == TimedOut)
  }

  /** Every message pushed so far is in exactly one place, and the channel is sound. */
  ghost predicate Conserved(w: Wire) {
    && (forall id: nat :: Places(w, id) == if id < w.next then 1 else 0)
    && Sound(w)
  }

  lemma StepConserves(w: Wire, s: WireStep)
    requires Conserved(w) && Enabled(w, s)
    ensures Conserved(Apply(w, s))
  {
    var w' := Apply(w, s);
    if w.buf != [] {
      assert w.buf == [w.buf[0]] + w.buf[1..];
    }
    assert Places(w, w.next) == 0;
    forall id: nat ensures Places(w', id) == if id < w'.next then 1 else 0 {
      assert Places(w, id) == if id < w.next then 1 else 0;
    }
  }

  /** Any interleaving of any number of pushes and of the reader. */
  ghost predicate WireRun(states: seq<Wire>, steps: seq<WireStep>) {
    && |states| == |steps| + 1
    && states[0] == Fresh(states[0].cap)
    && (forall i :: 0 <= i < |steps| ==> Enabled(states[i], steps[i]) && states[i + 1] == Apply(states[i], steps[i]))
  }

  lemma {:induction false} RunConserves(states: seq<Wire>, steps: seq<WireStep>, k: nat)
    requires WireRun(states, steps) && k <= |steps|
    ensures Conserved(states[k])
  {
    if k > 0 {
      RunConserves(states, steps, k - 1);
      StepConserves(states[k - 1], steps[k - 1]);
    }
  }

  ghost predicate Increasing(s: seq<nat>) {
    forall i, j :: 0 <= i < j < |s| ==> s[i] < s[j]
  }

  /** The reader gets the messages in order, and what was dropped is older than what is still buffered. */
  ghost predicate Ordered(w: Wire) {
    && Increasing(w.received + w.buf) && Increasing(w.evicted + w.buf)
    && (forall id :: id in w.pending ==> id < w.next && Above(w, id))
    && Above(w, w.next) && |w.buf| <= w.cap
  }

  /** Everything that went through the channel is older than `id`. */
  ghost predicate Above(w: Wire, id: nat) {
    forall x :: x in w.received || x in w.evicted || x in w.buf ==> x < id
  }

  lemma Appended(a: seq<nat>, b: seq<nat>, id: nat)
    requires Increasing(a + b) && forall x :: x in a || x in b ==> x < id
    ensures Increasing(a + (b + [id]))
  {
    var s := a + (b + [id]);
    forall i, j | 0 <= i < j < |s| ensures s[i] < s[j] {
      assert i < |a + b| && s[i] == (a + b)[i];
      assert (a + b)[i] in a || (a + b)[i] in b;
      if j < |a + b| {
        assert s[j] == (a + b)[j];
      }
    }
  }

  lemma HeadGone(a: seq<nat>, b: seq<nat>)
    requires Increasing(a + b) && b != []
    ensures Increasing(a + b[1..]) && Increasing((a + [b[0]]) + b[1..])
  {
    assert (a + [b[0]]) + b[1..] == a + b;
    var s := a + b[1..];
    forall i, j | 0 <= i < j < |s| ensures s[i] < s[j] {
      assert s[i] == (a + b)[if i < |a| then i else i + 1];
      assert s[j] == (a + b)[if j < |a| then j else j + 1];
    }
  }

  lemma OnlyOne(m: map<nat, Phase>, id: nat)
    requires |m| <= 1 && id in m
    ensures m.Keys == {id}
  {
    assert |m.Keys| == |m|;
    if exists k :: k in m && k != id {
      var k :| k in m && k != id;
      assert {k, id} <= m.Keys;
      assert |{k, id}| == 2;
      SubsetSize({k, id}, m.Keys);
    }
  }

  lemma HeadMoved(w: Wire, w': Wire)
    requires w.buf != [] && w'.buf == w.buf[1..]
    requires w'.received == w.received || w'.received == w.received + [w.buf[0]]
    requires w'.evicted == w.evicted || w'.evicted == w.evicted + [w.buf[0]]
    ensures forall id :: Above(w, id) ==> Above(w', id)
  {
    assert w.buf[0] in w.buf;
    forall id: nat, x: nat | Above(w, id) && (x in w'.received || x in w'.evicted || x in w'.buf) ensures x < id {
      assert x in w.received || x in w.evicted || x in w.buf;
    }
  }

  lemma StepIsOrdered(w: Wire, s: WireStep)
    requires Ordered(w) && Enabled(w, s)
    requires |w.pending| <= 1 && |Apply(w, s).pending| <= 1
    ensures Ordered(Apply(w, s))
  {
    match s {
      case Begin =>
        OnlyOne(Apply(w, s).pending, w.next);
      case Send(id) => SentInOrder(w, id);
      case Resend(id) => SentInOrder(w, id);
      case Handoff(id) =>
        OnlyOne(w.pending, id);
        assert w.buf == [];
        Appended(w.received, w.buf, id);
        assert w.received + (w.buf + [id]) == (w.received + [id]) + w.buf;
      case Evict(_) =>
        HeadGone(w.received, w.buf);
        HeadGone(w.evicted, w.buf);
        HeadMoved(w, Apply(w, s));
      case Receive =>
        HeadGone(w.received, w.buf);
        HeadGone(w.evicted, w.buf);
        HeadMoved(w, Apply(w, s));
      case _ =>
    }
  }

  lemma SentInOrder(w: Wire, id: nat)
    requires Ordered(w) && id in w.pending && |w.pending| <= 1 && |w.buf| < w.cap
    ensures Ordered(w.(buf := w.buf + [id], pending := w.pending - {id}))
  {
    OnlyOne(w.pending, id);
    Appended(w.received, w.buf, id);
    Appended(w.evicted, w.buf, id);
  }

  /** With one push at a time the order is kept, whatever the reader does. */
  lemma {:induction false} RunIsOrdered(states: seq<Wire>, steps: seq<WireStep>, k: nat)
    requires WireRun(states, steps) && k <= |steps|
    requires forall i :: 0 <= i < |states| ==> |states[i].pending| <= 1
    ensures Ordered(states[k])
  {
    if k > 0 {
      RunIsOrdered(states, steps, k - 1);
      StepIsOrdered(states[k - 1], steps[k - 1]);
    }
  }

  /** Two pushes at a time can overtake each other. */
  lemma ConcurrentPushesReorder()
    ensures exists states: seq<Wire>, steps: seq<WireStep> ::
              WireRun(states, steps) && !Increasing(states[|steps|].buf)
  {
    var steps := [Begin, Begin, Send(1), Send(0)];
    var w0 := Fresh(2);
    var w1 := Apply(w0, Begin);
    var w2 := Apply(w1, Begin);
    var w3 := Apply(w2, Send(1));
    var w4 := Apply(w3, Send(0));
    assert w4.buf[0] == 1 && w4.buf[1] == 0;
    assert WireRun([w0, w1, w2, w3, w4], steps);
    assert !Increasing([w0, w1, w2, w3, w4][|steps|].buf);
  }

  /** A push is under way, and until another one begins nothing can happen any more. */
  ghost predicate Blocked(w: Wire) {
    w.pending.Keys != {} && forall s :: Enabled(w, s) ==> s == Begin
  }

  /**
   Pushes are stuck exactly when the channel is empty and all of them are about to evict something from it.
   Without capacity a push could also be stuck while resending, but it never gets there.
   */
  lemma BlockedMeaning(w: Wire)
    ensures Blocked(w) <==>
              && w.pending.Keys != {} && w.buf == []
              && forall id :: id in w.pending ==> w.pending[id] == Evicting || (w.cap == 0 && w.pending[id] == Resending)
  {
    if Blocked(w) {
      assert !Enabled(w, Receive);
      forall id | id in w.pending ensures w.pending[id] == Evicting || (w.cap == 0 && w.pending[id] == Resending) {
        assert !Enabled(w, Send(id)) && !Enabled(w, Handoff(id)) && !Enabled(w, TestLength(id)) && !Enabled(w, Resend(id));
      }
    }
  }

  /** No send gives up while there is room. */
  ghost predicate Prompt(states: seq<Wire>, steps: seq<WireStep>)
    requires WireRun(states, steps)
  {
    forall i :: 0 <= i < |steps| && steps[i].Timeout? ==> |states[i].buf| == states[i].cap
  }

  lemma OneStepMore(states: seq<Wire>, steps: seq<WireStep>, s: WireStep) returns (states': seq<Wire>, steps': seq<WireStep>)
    requires WireRun(states, steps) && Enabled(states[|steps|], s)
    ensures WireRun(states', steps') && states'[0] == states[0]
    ensures states'[|steps'|] == Apply(states[|steps|], s)
    ensures Prompt(states, steps) && (s.Timeout? ==> |states[|steps|].buf| == states[|steps|].cap) ==> Prompt(states', steps')
  {
    states', steps' := states + [Apply(states[|steps|], s)], steps + [s];
  }

  /** Nothing is under way and `n` messages are buffered. */
  ghost predicate Settled(w: Wire, cap: nat, n: nat) {
    w.cap == cap && |w.buf| == n && w.pending == map[]
  }

  /** Any number of messages up to the capacity can be waiting in a channel. */
  lemma {:induction false} Fill(cap: nat, n: nat) returns (states: seq<Wire>, steps: seq<WireStep>)
    requires n <= cap
    ensures WireRun(states, steps) && Prompt(states, steps)
    ensures states[0] == Fresh(cap) && Settled(states[|steps|], cap, n)
    decreases n
  {
    if n == 0 {
      states, steps := [Fresh(cap)], [];
    } else {
      states, steps := Fill(cap, n - 1);
      var id := states[|steps|].next;
      states, steps := OneStepMore(states, steps, Begin);
      states, steps := OneStepMore(states, steps, Send(id));
    }
  }

  /** A reader that takes `n` messages while one push is about to evict. */
  lemma {:induction false} Drain(was: seq<Wire>, done: seq<WireStep>, id: nat) returns (states: seq<Wire>, steps: seq<WireStep>)
    requires WireRun(was, done) && was[|done|].pending == map[id := Evicting]
    ensures WireRun(states, steps) && states[0] == was[0]
    ensures Prompt(was, done) ==> Prompt(states, steps)
    ensures states[|steps|].pending == map[id := Evicting] && states[|steps|].buf == []
    decreases |was[|done|].buf|
  {
    states, steps := was, done;
    if was[|done|].buf != [] {
      states, steps := OneStepMore(was, done, Receive);
      states, steps := Drain(states, steps, id);
    }
  }

  /**
   The length test and the eviction are two steps: whatever the capacity, a reader that drains the channel
   in between leaves the push waiting for a message that nobody sends, even if no send gives up too early.
   */
  lemma EvictionCanBlock(cap: nat) returns (states: seq<Wire>, steps: seq<WireStep>)
    requires cap > 0
    ensures WireRun(states, steps) && Prompt(states, steps)
    ensures states[0] == Fresh(cap) && Blocked(states[|steps|])
  {
    states, steps := Fill(cap, cap);
    var id := states[|steps|].next;
    states, steps := OneStepMore(states, steps, Begin);
    states, steps := OneStepMore(states, steps, Timeout(id));
    states, steps := OneStepMore(states, steps, TestLength(id));
    states, steps := Drain(states, steps, id);
    assert id in states[|steps|].pending;
    BlockedMeaning(states[|steps|]);
  }

  // ---- Whether the pushes under way can end ----

  /** Some push evicts from an empty channel, and no other one will put anything in. */
  ghost predicate Starved(w: Wire) {
    && w.buf == [] && (exists id :: In(w, id, Evicting))
    && forall id :: id in w.pending ==> w.pending[id] == Evicting || w.pending[id] == TimedOut
  }

  lemma BlockedIsStarved(w: Wire)
    requires Sound(w) && Blocked(w)
    ensures Starved(w)
  {
    BlockedMeaning(w);
    var id :| id in w.pending;
    assert In(w, id, Evicting);
  }

  /** Steps of the reader and of pushes that are under way from the start. */
  ghost predicate Continues(states: seq<Wire>, steps: seq<WireStep>) {
    && |states| == |steps| + 1
    && forall i :: 0 <= i < |steps| ==>
         steps[i] != Begin && Enabled(states[i], steps[i]) && states[i + 1] == Apply(states[i], steps[i])
  }

  lemma StarvedStays(w: Wire, s: WireStep)
    requires Starved(w) && Enabled(w, s) && s != Begin
    ensures Starved(Apply(w, s))
  {
    var id :| In(w, id, Evicting);
    assert In(Apply(w, s), id, Evicting);
  }

  lemma {:induction false} StarvedForever(states: seq<Wire>, steps: seq<WireStep>, k: nat)
    requires Continues(states, steps) && Starved(states[0]) && k <= |steps|
    ensures Starved(states[k])
  {
    if k > 0 {
      StarvedForever(states, steps, k - 1);
      StarvedStays(states[k - 1], steps[k - 1]);
    }
  }

  function InPhase(m: map<nat, Phase>, p: Phase): set<nat> {
    set id | id in m && m[id] == p
  }

  /** A step that brings the pushes closer to their end. */
  lemma Advance(w: Wire) returns (s: WireStep)
    requires Sound(w) && !Starved(w) && w.pending != map[]
    ensures Enabled(w, s) && s != Begin && !Starved(Apply(w, s)) && Sound(Apply(w, s))
    ensures Closer(w, Apply(w, s))
  {
    if exists id :: In(w, id, Sending) || In(w, id, Resending) {
      var id :| In(w, id, Sending) || In(w, id, Resending);
      s := AdvanceSend(w, id);
    } else if exists id :: In(w, id, Evicting) {
      var id :| In(w, id, Evicting);
      forall x | x in w.pending ensures w.pending[x] == Evicting || w.pending[x] == TimedOut {
        assert !In(w, x, Sending) && !In(w, x, Resending);
      }
      s := Evict(id);
      assert In(Apply(w, s), id, Resending);
      PhaseLeft(w.pending, id, Resending);
    } else {
      var id :| id in w.pending;
      assert !In(w, id, Sending) && !In(w, id, Resending) && !In(w, id, Evicting);
      s := TestLength(id);
      if w.buf == [] {
        OneFewer(w.pending, id);
        assert forall x :: In(Apply(w, s), x, Evicting) ==> In(w, x, Evicting);
      } else {
        PhaseLeft(w.pending, id, Evicting);
      }
    }
  }

  lemma AdvanceSend(w: Wire, id: nat) returns (s: WireStep)
    requires Sound(w) && (In(w, id, Sending) || In(w, id, Resending))
    ensures Enabled(w, s) && s != Begin && !Starved(Apply(w, s)) && Sound(Apply(w, s))
    ensures Closer(w, Apply(w, s))
  {
    OneFewer(w.pending, id);
    if w.cap == 0 {
      s := Handoff(id);
    } else if |w.buf| == w.cap {
      s := Receive;
    } else {
      s := if In(w, id, Sending) then Send(id) else Resend(id);
    }
  }

  /** Fewer pushes, or the same ones further on, or fewer messages in their way. */
  ghost predicate Closer(w: Wire, w': Wire) {
    var m, m' := w.pending, w'.pending;
    || |m'| < |m|
    || (|m'| == |m| && |InPhase(m', TimedOut)| < |InPhase(m, TimedOut)|)
    || (|m'| == |m| && InPhase(m', TimedOut) == InPhase(m, TimedOut) && |InPhase(m', Evicting)| < |InPhase(m, Evicting)|)
    || (m' == m && |w'.buf| < |w.buf|)
  }

  lemma OneFewer(m: map<nat, Phase>, id: nat)
    requires id in m
    ensures |m - {id}| < |m|
  {
    assert (m - {id}).Keys == m.Keys - {id};
    assert |(m - {id}).Keys| == |m - {id}| && |m.Keys| == |m|;
  }

  lemma PhaseLeft(m: map<nat, Phase>, id: nat, p: Phase)
    requires id in m && p != m[id] && p != TimedOut
    ensures |m[id := p]| == |m|
    ensures |InPhase(m[id := p], m[id])| < |InPhase(m, m[id])|
    ensures m[id] != TimedOut ==> InPhase(m[id := p], TimedOut) == InPhase(m, TimedOut)
  {
    assert m[id := p].Keys == m.Keys;
    assert |m[id := p].Keys| == |m[id := p]| && |m.Keys| == |m|;
    assert InPhase(m[id := p], m[id]) == InPhase(m, m[id]) - {id};
  }

  lemma {:induction false} Finish(w: Wire) returns (states: seq<Wire>, steps: seq<WireStep>)
    requires Sound(w) && !Starved(w)
    ensures Continues(states, steps) && states[0] == w && states[|steps|].pending == map[]
    decreases |w.pending|, |InPhase(w.pending, TimedOut)|, |InPhase(w.pending, Evicting)|, |w.buf|
  {
    states, steps := [w], [];
    if w.pending != map[] {
      var s := Advance(w);
      states, steps := Finish(Apply(w, s));
      states, steps := Before(w, s, states, steps);
    }
  }

  lemma Before(w: Wire, s: WireStep, was: seq<Wire>, done: seq<WireStep>) returns (states: seq<Wire>, steps: seq<WireStep>)
    requires Enabled(w, s) && s != Begin && Continues(was, done) && was[0] == Apply(w, s)
    ensures Continues(states, steps) && states[0] == w && states[|steps|] == was[|done|]
  {
    states, steps := [w] + was, [s] + done;
    forall i | 0 <= i < |steps| ensures steps[i] != Begin && Enabled(states[i], steps[i]) && states[i + 1] == Apply(states[i], steps[i]) {
      assert i > 0 ==> steps[i] == done[i - 1] && states[i] == was[i - 1] && states[i + 1] == was[i];
    }
  }

  /** With readers at hand, all the pushes under way can end without a new one exactly when none is starved. */
  lemma FinishMeaning(w: Wire)
    requires Sound(w)
    ensures (exists states: seq<Wire>, steps: seq<WireStep> :: Continues(states, steps) && states[0] == w && states[|steps|].pending == map[]) <==> !Starved(w)
  {
    if Starved(w) {
      forall states: seq<Wire>, steps: seq<WireStep> | Continues(states, steps) && states[0] == w ensures states[|steps|].pending != map[] {
        StarvedForever(states, steps, |steps|);
      }
    } else {
      var states, steps := Finish(w);
    }
  }
}
