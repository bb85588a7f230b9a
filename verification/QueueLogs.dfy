/** Who delivers what: the blocking queue, seen from its callers.

A log is kept beside a run: the calls as they were made, the pushes in the order in which they took effect,
    and for every
element that left the queue the call that took it. Nothing in the log is read off the queue itself.
 */
module QueueLogs {
  import opened SyncQueues

  /** The calls; the elements of the pushes that took effect, with the calls that pushed them; and who took each
      element. */
  datatype Log<T> = Log(calls: seq<Call<T>>, pushers: seq<nat>, elements: seq<T>, takers: seq<nat>)

  /** Call `t` puts its element into the queue in this step. */
  ghost predicate Gives<T>(s: State<T>, t: nat) {
    Enabled(s, t) && s.pcs[t].PushBody?
  }

  /** Call `t` takes the first element out of the queue in this step. */
  ghost predicate Takes<T>(s: State<T>, t: nat) {
    Enabled(s, t) && (s.pcs[t].PopLoop? || s.pcs[t].FlushLoop?) && s.q != []
  }

  ghost function Logged<T>(s: State<T>, l: Log<T>, e: Event<T>): Log<T> {
    match e
    case Begin(c) => l.(calls := l.calls + [c])
    case Advance(t) =>
      if Gives(s, t) && t < |l.calls| && l.calls[t].Push? then
        l.(pushers := l.pushers + [t], elements := l.elements + [l.calls[t].elt])
      else if Takes(s, t) then l.(takers := l.takers + [t])
      else l
    case WakeUp(_) => l
  }

  /** The log of a run. */
  ghost function LogOf<T>(events: seq<Event<T>>): Log<T> {
    if events == [] then Log([], [], [], [])
    else
      var front := events[..|events| - 1];
      Logged(Continue(Initial(), front), LogOf(front), events[|events| - 1])
  }

  /** The elements that call `t` took, in order; `takers[i]` took `elements[i]`. */
  ghost function Share<T>(takers: seq<nat>, elements: seq<T>, t: nat): seq<T>
    requires |takers| <= |elements|
  {
    if takers == [] then []
    else
      var n := |takers| - 1;
      Share(takers[..n], elements, t) + if takers[n] == t then [elements[n]] else []
  }

  /** What a call has in hand, or has returned. */
  ghost function InHand<T>(pc: Pc<T>): seq<T> {
    match pc
    case FlushLoop(acc) => acc
    case Returned(Got(x)) => [x]
    case Returned(Flushed(xs)) => xs
    case _ => []
  }

  /** A push has taken effect. */
  ghost predicate PushDone<T>(c: Call<T>, pc: Pc<T>) {
    c.Push? && (pc.PushNotify? || pc.Returned?)
  }

  /** Where a call can be, by what it is; in particular what it can return. */
  ghost predicate Fits<T>(c: Call<T>, pc: Pc<T>, stopped: bool) {
    match c
    case Pop =>
      || pc.PopLock? || pc.PopFirst? || pc.PopLoop? || pc.PopTest? || pc.PopWait? || pc.Asleep? || pc.PopRelock?
      || (pc.Returned? && (pc.result.Got? || (pc.result.Stopped? && stopped)))
    case Push(x) => pc == PushLock(x) || pc == PushBody(x) || pc.PushNotify? || pc == Returned(Nothing)
    case Flush => pc.FlushLock? || pc.FlushLoop? || (pc.Returned? && pc.result.Flushed?)
    case Stop => pc.StopSet? || pc.StopNotify? || pc == Returned(Nothing)
  }

  /** What the log says about one call. */
  ghost predicate CallOk<T>(pc: Pc<T>, stopped: bool, l: Log<T>, t: nat)
    requires t < |l.calls| && |l.takers| <= |l.elements|
  {
    && Fits(l.calls[t], pc, stopped)
    && multiset(l.pushers)[t] == (if PushDone(l.calls[t], pc) then 1 else 0)
    && Share(l.takers, l.elements, t) == InHand(pc)
  }

  /** What the log says about the queue. */
  ghost predicate QueueOk<T>(q: seq<T>, l: Log<T>) {
    && |l.pushers| == |l.elements| && |l.takers| <= |l.elements|
    && q == l.elements[|l.takers|..]
    && (forall i :: 0 <= i < |l.pushers| ==>
          l.pushers[i] < |l.calls| && l.calls[l.pushers[i]] == Push(l.elements[i]))
    && forall i :: 0 <= i < |l.takers| ==> l.takers[i] < |l.calls|
  }

  ghost predicate Agrees<T>(s: State<T>, l: Log<T>) {
    && |l.calls| == |s.pcs| && QueueOk(s.q, l)
    && forall t: nat :: t < |s.pcs| ==> CallOk(s.pcs[t], s.stopped, l, t)
  }

  lemma {:induction false} ShareMore<T>(takers: seq<nat>, elements: seq<T>, x: T, t: nat)
    requires |takers| <= |elements|
    ensures Share(takers, elements + [x], t) == Share(takers, elements, t)
  {
    if takers != [] {
      ShareMore(takers[..|takers| - 1], elements, x, t);
    }
  }

  lemma {:induction false} ShareNone<T>(takers: seq<nat>, elements: seq<T>, t: nat)
    requires |takers| <= |elements| && t !in takers
    ensures Share(takers, elements, t) == []
  {
    if takers != [] {
      ShareNone(takers[..|takers| - 1], elements, t);
    }
  }

  lemma ShareStep<T>(takers: seq<nat>, elements: seq<T>, w: nat, t: nat)
    requires |takers| < |elements|
    ensures Share(takers + [w], elements, t)
         == Share(takers, elements, t) + if w == t then [elements[|takers|]] else []
  {
    assert (takers + [w])[..|takers|] == takers;
  }

  lemma CountMore(s: seq<nat>, x: nat, t: nat)
    ensures multiset(s + [x])[t] == multiset(s)[t] + if x == t then 1 else 0
  {
    assert multiset(s + [x]) == multiset(s) + multiset{x};
  }

  // ---------------------------------------------------------------------------------------
  // Every event keeps the agreement

  lemma BeginAgrees<T>(s: State<T>, l: Log<T>, c: Call<T>)
    requires Agrees(s, l)
    ensures Agrees(Act(s, Begin(c)), Logged(s, l, Begin(c)))
  {
    hide Share, Fits;
    var s', l', n := Act(s, Begin(c)), Logged(s, l, Begin(c)), |s.pcs|;
    NewCall(l, c);
    forall t: nat | t < |s'.pcs|
      ensures CallOk(s'.pcs[t], s'.stopped, l', t)
    {
      if t < n {
        assert CallOk(s.pcs[t], s.stopped, l, t);
      }
    }
  }

  lemma NewCall<T>(l: Log<T>, c: Call<T>)
    requires QueueOk(l.elements[if |l.takers| <= |l.elements| then |l.takers| else 0..], l)
    ensures CallOk(Entry(c), false, l.(calls := l.calls + [c]), |l.calls|)
    ensures CallOk(Entry(c), true, l.(calls := l.calls + [c]), |l.calls|)
  {
    var n := |l.calls|;
    assert n !in l.takers && n !in l.pushers;
    ShareNone(l.takers, l.elements, n);
    assert multiset(l.pushers)[n] == 0;
  }

  /** Other calls keep their place, or are notified. */
  lemma OthersStay<T>(s: State<T>, t: nat, u: nat)
    requires Enabled(s, t) && u < |s.pcs| && u != t
    ensures var s' := Next(s, t);
            && |s'.pcs| == |s.pcs|
            && (s'.pcs[u] == s.pcs[u] || (s.pcs[u].Asleep? && s'.pcs[u] == Asleep(true)))
            && (s.stopped ==> s'.stopped)
  {
  }

  /** A call that keeps its place agrees as before, also when it is notified, woken, or the queue is stopped. */
  lemma StillOk<T>(pc: Pc<T>, pc': Pc<T>, stopped: bool, stopped': bool, l: Log<T>, t: nat)
    requires t < |l.calls| && |l.takers| <= |l.elements| && CallOk(pc, stopped, l, t) && (stopped ==> stopped')
    requires pc' == pc || (pc.Asleep? && (pc'.Asleep? || pc'.PopRelock?))
    ensures CallOk(pc', stopped', l, t)
  {
  }

  lemma GiveStep<T>(s: State<T>, t: nat)
    requires Gives(s, t)
    ensures Next(s, t).q == s.q + [s.pcs[t].elt] && Next(s, t).stopped == s.stopped && |Next(s, t).pcs| == |s.pcs|
    ensures Next(s, t).pcs[t].PushNotify? || Next(s, t).pcs[t] == Returned(Nothing)
  {
  }

  lemma GiveAgrees<T>(s: State<T>, l: Log<T>, t: nat)
    requires Agrees(s, l) && Gives(s, t)
    ensures Agrees(Next(s, t), Logged(s, l, Advance(t)))
  {
    hide Next, Share;
    var s', x := Next(s, t), s.pcs[t].elt;
    assert CallOk(s.pcs[t], s.stopped, l, t);
    var l' := l.(pushers := l.pushers + [t], elements := l.elements + [x]);
    assert Logged(s, l, Advance(t)) == l';
    GiveStep(s, t);
    hide Fits, Enabled;
    assert s'.q == l'.elements[|l'.takers|..];
    forall u: nat | u < |s'.pcs|
      ensures CallOk(s'.pcs[u], s'.stopped, l', u)
    {
      GiveOne(s, l, t, u);
    }
  }

  lemma GiveOne<T>(s: State<T>, l: Log<T>, t: nat, u: nat)
    requires Agrees(s, l) && Gives(s, t) && u < |s.pcs|
    requires l.calls[t] == Push(s.pcs[t].elt)
    ensures u < |Next(s, t).pcs|
    ensures CallOk(Next(s, t).pcs[u], Next(s, t).stopped,
                   l.(pushers := l.pushers + [t], elements := l.elements + [s.pcs[t].elt]), u)
  {
    hide Next, Share;
    GiveStep(s, t);
    assert CallOk(s.pcs[u], s.stopped, l, u) && CallOk(s.pcs[t], s.stopped, l, t);
    ShareMore(l.takers, l.elements, s.pcs[t].elt, u);
    CountMore(l.pushers, t, u);
    if u != t {
      OthersStay(s, t, u);
    }
  }

  lemma TakeStep<T>(s: State<T>, t: nat)
    requires Takes(s, t)
    ensures var s' := Next(s, t);
            && s'.q == s.q[1..] && s'.stopped == s.stopped && |s'.pcs| == |s.pcs|
            && s'.pcs[t] == (if s.pcs[t].PopLoop? then Returned(Got(s.q[0])) else FlushLoop(s.pcs[t].acc + [s.q[0]]))
  {
  }

  lemma TakeAgrees<T>(s: State<T>, l: Log<T>, t: nat)
    requires Agrees(s, l) && Takes(s, t)
    ensures Agrees(Next(s, t), Logged(s, l, Advance(t)))
  {
    hide Next, Share, Fits, Enabled;
    var s', l', n := Next(s, t), l.(takers := l.takers + [t]), |l.takers|;
    TakeStep(s, t);
    TakesEnabled(s, t);
    assert Logged(s, l, Advance(t)) == l';
    assert s.q[0] == l.elements[n] && s.q[1..] == l.elements[n + 1..];
    forall u: nat | u < |s'.pcs|
      ensures CallOk(s'.pcs[u], s'.stopped, l', u)
    {
      TakeOne(s, l, t, u);
    }
  }

  lemma TakesEnabled<T>(s: State<T>, t: nat)
    requires Takes(s, t)
    ensures t < |s.pcs| && Enabled(s, t) && !s.pcs[t].PushBody?
  {
  }

  lemma TakeOne<T>(s: State<T>, l: Log<T>, t: nat, u: nat)
    requires Agrees(s, l) && Takes(s, t) && u < |s.pcs|
    ensures u < |Next(s, t).pcs| && |l.takers| < |l.elements|
    ensures CallOk(Next(s, t).pcs[u], Next(s, t).stopped, l.(takers := l.takers + [t]), u)
  {
    hide Next, Share;
    TakeStep(s, t);
    assert CallOk(s.pcs[u], s.stopped, l, u);
    assert s.q[0] == l.elements[|l.takers|];
    ShareStep(l.takers, l.elements, t, u);
    if u != t {
      OthersStay(s, t, u);
    }
  }

  lemma PlainStep<T>(s: State<T>, t: nat, c: Call<T>)
    requires Enabled(s, t) && !Gives(s, t) && !Takes(s, t) && Fits(c, s.pcs[t], s.stopped)
    ensures var s' := Next(s, t);
            && s'.q == s.q && |s'.pcs| == |s.pcs| && (s.stopped ==> s'.stopped)
            && Fits(c, s'.pcs[t], s'.stopped) && InHand(s'.pcs[t]) == InHand(s.pcs[t])
            && PushDone(c, s'.pcs[t]) == PushDone(c, s.pcs[t])
  {
  }

  lemma PlainAgrees<T>(s: State<T>, l: Log<T>, t: nat)
    requires Agrees(s, l) && Enabled(s, t) && !Gives(s, t) && !Takes(s, t)
    ensures Agrees(Next(s, t), Logged(s, l, Advance(t)))
  {
    hide Next, Share, Fits, Enabled, PushDone, InHand;
    var s' := Next(s, t);
    assert Logged(s, l, Advance(t)) == l;
    assert t < |s.pcs| by { EnabledCall(s, t); }
    assert CallOk(s.pcs[t], s.stopped, l, t);
    PlainStep(s, t, l.calls[t]);
    forall u: nat | u < |s'.pcs|
      ensures CallOk(s'.pcs[u], s'.stopped, l, u)
    {
      if u != t {
        assert CallOk(s.pcs[u], s.stopped, l, u);
        OthersStay(s, t, u);
        StillOk(s.pcs[u], s'.pcs[u], s.stopped, s'.stopped, l, u);
      }
    }
  }

  lemma EnabledCall<T>(s: State<T>, t: nat)
    requires Enabled(s, t)
    ensures t < |s.pcs|
  {
  }

  lemma WakeAgrees<T>(s: State<T>, l: Log<T>, t: nat)
    requires Agrees(s, l)
    ensures Agrees(Act(s, WakeUp(t)), l)
  {
    hide Share, Fits, PushDone, InHand;
    var s' := Act(s, WakeUp(t));
    forall u: nat | u < |s'.pcs|
      ensures CallOk(s'.pcs[u], s'.stopped, l, u)
    {
      assert CallOk(s.pcs[u], s.stopped, l, u);
      StillOk(s.pcs[u], s'.pcs[u], s.stopped, s'.stopped, l, u);
    }
  }

  lemma ActAgrees<T>(s: State<T>, l: Log<T>, e: Event<T>)
    requires Agrees(s, l)
    ensures Agrees(Act(s, e), Logged(s, l, e))
  {
    hide Agrees, Gives, Takes, Next, Enabled;
    match e
    case Begin(c) => BeginAgrees(s, l, c);
    case Advance(t) =>
      if Gives(s, t) {
        assert Enabled(s, t) by { GivesEnabled(s, t); }
        GiveAgrees(s, l, t);
      } else if Takes(s, t) {
        TakesEnabled(s, t);
        TakeAgrees(s, l, t);
      } else if Enabled(s, t) {
        PlainAgrees(s, l, t);
      }
    case WakeUp(t) => WakeAgrees(s, l, t);
  }

  lemma GivesEnabled<T>(s: State<T>, t: nat)
    requires Gives(s, t)
    ensures Enabled(s, t)
  {
  }

  lemma {:induction false} RunAgrees<T>(events: seq<Event<T>>)
    ensures Agrees(Continue(Initial(), events), LogOf(events))
  {
    hide Agrees, Act, Logged;
    if events == [] {
      NothingAgrees<T>();
    } else {
      var front := events[..|events| - 1];
      RunAgrees(front);
      ActAgrees(Continue(Initial(), front), LogOf(front), events[|events| - 1]);
    }
  }

  lemma NothingAgrees<T>()
    ensures Agrees<T>(Initial(), Log([], [], [], []))
  {
  }

  // ---------------------------------------------------------------------------------------
  // The results

  /** In every run: the queue holds the elements of the pushes that took effect, in that order, without those that
      were taken; each push takes effect once; and every element that was taken was taken by one call, which has it in
      hand or has returned it, with all others that it took, in order, and nothing else. */
  lemma Delivered<T>(events: seq<Event<T>>)
    ensures var s, l := Continue(Initial(), events), LogOf(events);
            && |l.calls| == |s.pcs| && |l.pushers| == |l.elements| && |l.takers| <= |l.elements|
            && s.q == l.elements[|l.takers|..]
            && (forall i :: 0 <= i < |l.pushers| ==>
                  l.pushers[i] < |l.calls| && l.calls[l.pushers[i]] == Push(l.elements[i]))
            && (forall t: nat :: t < |s.pcs| && l.calls[t].Push? ==>
                  multiset(l.pushers)[t] == if s.pcs[t].PushNotify? || s.pcs[t].Returned? then 1 else 0)
            && (forall i :: 0 <= i < |l.takers| ==> l.takers[i] < |s.pcs|)
            && forall t: nat :: t < |s.pcs| ==> Share(l.takers, l.elements, t) == InHand(s.pcs[t])
  {
    RunAgrees(events);
    var s, l := Continue(Initial(), events), LogOf(events);
    hide LogOf, Continue, Share, Fits;
    forall t: nat | t < |s.pcs|
      ensures Share(l.takers, l.elements, t) == InHand(s.pcs[t])
      ensures multiset(l.pushers)[t] == if PushDone(l.calls[t], s.pcs[t]) then 1 else 0
    {
      assert CallOk(s.pcs[t], s.stopped, l, t);
    }
  }

  /** What calls return: a pop an element that it took, or the mark of a stopped queue and nothing else, and that only
      once the queue is stopped; a flush what it took; a push and a stop nothing. */
  lemma ReturnsByKind<T>(events: seq<Event<T>>, t: nat)
    requires t < |Continue(Initial(), events).pcs| && Continue(Initial(), events).pcs[t].Returned?
    ensures var s, l := Continue(Initial(), events), LogOf(events);
            && t < |l.calls| && |l.takers| <= |l.elements|
            && var result, took := s.pcs[t].result, Share(l.takers, l.elements, t);
               match l.calls[t]
               case Pop => if took == [] then result == Stopped && s.stopped else |took| == 1 && result == Got(took[0])
               case Flush => result == Flushed(took)
               case Push(_) => result == Nothing && took == []
               case Stop => result == Nothing && took == []
  {
    RunAgrees(events);
    var s, l := Continue(Initial(), events), LogOf(events);
    hide LogOf, Continue, Share;
    assert CallOk(s.pcs[t], s.stopped, l, t);
  }

  /** From the moment a flush has the mutex until it returns, what it took and what is left are what it found. */
  ghost predicate Flushing<T>(s: State<T>, t: nat, found: seq<T>) {
    && t < |s.pcs|
    && if s.pcs[t].FlushLoop? then s.pcs[t].acc + s.q == found else s.pcs[t] == Returned(Flushed(found))
  }

  lemma FlushingAct<T>(s: State<T>, e: Event<T>, t: nat, found: seq<T>)
    requires Inv(s) && Flushing(s, t, found)
    ensures Flushing(Act(s, e), t, found)
  {
    if e.Advance? && Enabled(s, e.t) {
      var u := e.t;
      if u == t {
        if s.q != [] {
          assert s.pcs[t].acc + [s.q[0]] + s.q[1..] == s.pcs[t].acc + s.q;
        } else {
          assert s.pcs[t].acc + s.q == s.pcs[t].acc;
        }
      } else {
        OthersStay(s, u, t);
        if s.pcs[t].FlushLoop? && Owns(s.pcs[u]) {
          OnlyOwner(s, t, u);
        }
      }
    }
  }

  lemma {:induction false} FlushingOn<T>(s: State<T>, more: seq<Event<T>>, t: nat, found: seq<T>)
    requires Inv(s) && Flushing(s, t, found)
    ensures Flushing(Continue(s, more), t, found)
  {
    hide Act, Inv, Flushing;
    if more != [] {
      var front := more[..|more| - 1];
      FlushingOn(s, front, t, found);
      ContinueKeepsInv(s, front);
      FlushingAct(Continue(s, front), more[|more| - 1], t, found);
    }
  }

  /** A flush returns everything that was in the queue when it got the mutex, in order, and leaves the queue empty. */
  lemma FlushReturnsAll<T>(events: seq<Event<T>>, t: nat, more: seq<Event<T>>)
    requires var s := Continue(Initial(), events); t < |s.pcs| && s.pcs[t] == FlushLoop([])
    ensures var s, s' := Continue(Initial(), events), Continue(Continue(Initial(), events), more);
            && t < |s'.pcs|
            && (s'.pcs[t].Returned? ==> s'.pcs[t] == Returned(Flushed(s.q)))
            && (Enabled(s', t) && Next(s', t).pcs[t].Returned? ==>
                  s'.q == [] && Next(s', t).q == [] && Next(s', t).pcs[t] == Returned(Flushed(s.q)))
  {
    var s := Continue(Initial(), events);
    assert [] + s.q == s.q;
    ContinueKeepsInv(Initial(), events);
    FlushingOn(s, more, t, s.q);
    var s' := Continue(s, more);
    if s'.pcs[t].FlushLoop? && s'.q == [] {
      assert s'.pcs[t].acc + s'.q == s'.pcs[t].acc;
    }
  }
}
