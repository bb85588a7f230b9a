/** The blocking queue of synchronized_queue.cpp as steps of threads.

`q` is only touched under the mutex; the flag `is_stopped` is set by `stop` without it. Waiting on the
condition variable gives up the mutex and falls asleep in one step. A notification wakes those who
sleep at that moment and is lost on others; sleepers may also wake without cause.
 */
module SyncQueues {
  /** What a call returns: an element, the mark that the queue was stopped, the flushed elements, or nothing. */
  datatype Result<T> = Got(value: T) | Stopped | Flushed(values: seq<T>) | Nothing

  /** Where a call is. */
  datatype Pc<T> =
    | PopLock                       // wants the mutex, on entry
    | PopFirst                      // holds it; about to test the flag for the first time
    | PopLoop                       // holds it; about to test whether the queue is empty
    | PopTest                       // holds it; the queue was empty; about to test the flag
    | PopWait                       // holds it; about to wait
    | Asleep(notified: bool)        // waits
    | PopRelock                     // woken; wants the mutex again
    | PushLock(elt: T)              // wants the mutex
    | PushBody(elt: T)              // holds it
    | PushNotify                    // has released it; about to notify all
    | FlushLock                     // wants the mutex
    | FlushLoop(acc: seq<T>)        // holds it; has taken `acc`
    | StopSet                       // about to set the flag
    | StopNotify                    // about to notify all
    | Returned(result: Result<T>)

  /** The queue, with the history of what was pushed and what was removed. */
  datatype State<T> = State(q: seq<T>, stopped: bool, owner: set<nat>, pcs: seq<Pc<T>>, pushed: seq<T>, removed: seq<T>)

  datatype Call<T> = Pop | Push(elt: T) | Flush | Stop

  datatype Event<T> = Begin(call: Call<T>) | Advance(t: nat) | WakeUp(t: nat)

  function Entry<T>(c: Call<T>): Pc<T> {
    match c
    case Pop => PopLock
    case Push(x) => PushLock(x)
    case Flush => FlushLock
    case Stop => StopSet
  }

  predicate Wants<T>(pc: Pc<T>) {
    pc.PopLock? || pc.PopRelock? || pc.PushLock? || pc.FlushLock?
  }

  predicate Owns<T>(pc: Pc<T>) {
    pc.PopFirst? || pc.PopLoop? || pc.PopTest? || pc.PopWait? || pc.PushBody? || pc.FlushLoop?
  }

  predicate Enabled<T>(s: State<T>, t: nat) {
    && t < |s.pcs| && !s.pcs[t].Returned?
    && (Wants(s.pcs[t]) ==> s.owner == {})
    && (s.pcs[t].Asleep? ==> s.pcs[t].notified)
  }

  /** All sleepers are notified. */
  function NotifyAll<T>(pcs: seq<Pc<T>>): (r: seq<Pc<T>>)
    ensures |r| == |pcs|
    ensures forall u :: 0 <= u < |pcs| ==> r[u] == if pcs[u].Asleep? then Asleep(true) else pcs[u]
  {
    seq(|pcs|, u requires 0 <= u < |pcs| => if pcs[u].Asleep? then Asleep(true) else pcs[u])
  }

  /** The step of thread `t`. */
  function Next<T>(s: State<T>, t: nat): State<T>
    requires Enabled(s, t)
  {
    match s.pcs[t]
    case PopLock => s.(owner := {t}, pcs := s.pcs[t := PopFirst])
    case PopFirst =>
      if s.stopped then s.(owner := {}, pcs := s.pcs[t := Returned(Stopped)]) else s.(pcs := s.pcs[t := PopLoop])
    case PopLoop =>
      if s.q == [] then s.(pcs := s.pcs[t := PopTest])
      else s.(q := s.q[1..], removed := s.removed + [s.q[0]], owner := {}, pcs := s.pcs[t := Returned(Got(s.q[0]))])
    case PopTest =>
      if s.stopped then s.(owner := {}, pcs := s.pcs[t := Returned(Stopped)]) else s.(pcs := s.pcs[t := PopWait])
    case PopWait => s.(owner := {}, pcs := s.pcs[t := Asleep(false)])
    case Asleep(_) => s.(pcs := s.pcs[t := PopRelock])
    case PopRelock => s.(owner := {t}, pcs := s.pcs[t := PopLoop])
    case PushLock(x) => s.(owner := {t}, pcs := s.pcs[t := PushBody(x)])
    case PushBody(x) =>
      s.(q := s.q + [x], pushed := s.pushed + [x], owner := {}, pcs :=
         s.pcs[t := if s.q == [] then PushNotify else Returned(Nothing)])
    case PushNotify => s.(pcs := NotifyAll(s.pcs)[t := Returned(Nothing)])
    case FlushLock => s.(owner := {t}, pcs := s.pcs[t := FlushLoop([])])
    case FlushLoop(acc) =>
      if s.q == [] then s.(owner := {}, pcs := s.pcs[t := Returned(Flushed(acc))])
      else s.(q := s.q[1..], removed := s.removed + [s.q[0]], pcs := s.pcs[t := FlushLoop(acc + [s.q[0]])])
    case StopSet => s.(stopped := true, pcs := s.pcs[t := StopNotify])
    case StopNotify => s.(pcs := NotifyAll(s.pcs)[t := Returned(Nothing)])
  }

  function Act<T>(s: State<T>, e: Event<T>): State<T> {
    match e
    case Begin(c) => s.(pcs := s.pcs + [Entry(c)])
    case Advance(t) => if Enabled(s, t) then Next(s, t) else s
    case WakeUp(t) => if t < |s.pcs| && s.pcs[t].Asleep? then s.(pcs := s.pcs[t := PopRelock]) else s
  }

  function Continue<T>(s: State<T>, events: seq<Event<T>>): State<T> {
    if events == [] then s else Act(Continue(s, events[..|events| - 1]), events[|events| - 1])
  }

  function Initial<T>(): State<T> {
    State([], false, {}, [], [], [])
  }

  // ---------------------------------------------------------------------------------------
  // The invariant

  ghost predicate Sleeper<T>(s: State<T>) {
    exists t :: 0 <= t < |s.pcs| && s.pcs[t] == Asleep(false)
  }

  ghost predicate Pending<T>(s: State<T>) {
    exists t :: 0 <= t < |s.pcs| && s.pcs[t].PushNotify?
  }

  /** The mutex has one owner, who is where the mutex is held. */
  ghost predicate Mutex<T>(s: State<T>) {
    && (forall t: nat :: t in s.owner <==> t < |s.pcs| && Owns(s.pcs[t]))
    && forall t, u :: t in s.owner && u in s.owner ==> t == u
  }

  /** Whoever is about to wait has seen an empty queue, and still holds the mutex. */
  ghost predicate SawEmpty<T>(s: State<T>) {
    forall t :: 0 <= t < |s.pcs| && (s.pcs[t].PopTest? || s.pcs[t].PopWait?) ==> s.q == []
  }

  /** No wake-up is lost: while there is something to pop and someone sleeps, a notification is on its way. */
  ghost predicate NoLostWakeUp<T>(s: State<T>) {
    s.q != [] && Sleeper(s) ==> Pending(s)
  }

  /** First in, first out: what was removed, then what is there, is what was pushed. */
  ghost predicate Fifo<T>(s: State<T>) {
    s.removed + s.q == s.pushed
  }

  ghost predicate Inv<T>(s: State<T>) {
    Mutex(s) && SawEmpty(s) && NoLostWakeUp(s) && Fifo(s)
  }

  lemma OnlyOwner<T>(s: State<T>, t: nat, u: nat)
    requires Mutex(s) && t < |s.pcs| && u < |s.pcs| && Owns(s.pcs[t]) && Owns(s.pcs[u])
    ensures t == u
  {
    assert t in s.owner && u in s.owner;
  }

  lemma NextMutex<T>(s: State<T>, t: nat)
    requires Mutex(s) && Enabled(s, t)
    ensures Mutex(Next(s, t))
  {
    var s' := Next(s, t);
    forall u: nat
      ensures u in s'.owner <==> u < |s'.pcs| && Owns(s'.pcs[u])
    {
      assert u in s.owner <==> u < |s.pcs| && Owns(s.pcs[u]);
      assert t in s.owner <==> Owns(s.pcs[t]);
    }
  }

  lemma NextSawEmpty<T>(s: State<T>, t: nat)
    requires Mutex(s) && SawEmpty(s) && Enabled(s, t)
    ensures SawEmpty(Next(s, t))
  {
    var s' := Next(s, t);
    forall u: nat | u < |s'.pcs| && (s'.pcs[u].PopTest? || s'.pcs[u].PopWait?)
      ensures s'.q == []
    {
      if u != t && s.pcs[t].PushBody? {
        OnlyOwner(s, t, u);
      }
    }
  }

  /** Someone who sleeps after the step was asleep before it, or has just fallen asleep on an empty queue. */
  lemma NextNoLost<T>(s: State<T>, t: nat)
    requires SawEmpty(s) && NoLostWakeUp(s) && Enabled(s, t)
    ensures NoLostWakeUp(Next(s, t))
  {
    var s' := Next(s, t);
    if s'.q != [] && Sleeper(s') {
      var u :| 0 <= u < |s'.pcs| && s'.pcs[u] == Asleep(false);
      assert s.pcs[u] == Asleep(false);
      if s.pcs[t].PushBody? && s.q == [] {
        assert s'.pcs[t].PushNotify?;
      } else {
        var w :| 0 <= w < |s.pcs| && s.pcs[w].PushNotify?;
        assert s'.pcs[w].PushNotify?;
      }
    }
  }

  lemma NextKeepsInv<T>(s: State<T>, t: nat)
    requires Inv(s) && Enabled(s, t)
    ensures Inv(Next(s, t))
  {
    NextMutex(s, t);
    NextSawEmpty(s, t);
    NextNoLost(s, t);
    NextFifo(s, t);
  }

  lemma NextFifo<T>(s: State<T>, t: nat)
    requires Fifo(s) && Enabled(s, t)
    ensures Fifo(Next(s, t))
  {
    if s.q != [] {
      assert s.removed + s.q == s.removed + [s.q[0]] + s.q[1..];
    }
    if s.pcs[t].PushBody? {
      assert s.removed + (s.q + [s.pcs[t].elt]) == s.removed + s.q + [s.pcs[t].elt];
    }
  }

  lemma OtherKeepsInv<T>(s: State<T>, e: Event<T>)
    requires Inv(s) && !e.Advance?
    ensures Inv(Act(s, e))
  {
    var s' := Act(s, e);
    assert forall u :: 0 <= u < |s.pcs| ==> s'.pcs[u] == s.pcs[u] || (s.pcs[u].Asleep? && s'.pcs[u].PopRelock?);
    assert forall u: nat :: u in s'.owner <==> u < |s'.pcs| && Owns(s'.pcs[u]);
    if s'.q != [] && Sleeper(s') {
      var u :| 0 <= u < |s'.pcs| && s'.pcs[u] == Asleep(false);
      assert s.pcs[u] == Asleep(false);
      var w :| 0 <= w < |s.pcs| && s.pcs[w].PushNotify?;
      assert s'.pcs[w].PushNotify?;
    }
  }

  lemma {:induction false} ContinueKeepsInv<T>(s: State<T>, events: seq<Event<T>>)
    requires Inv(s)
    ensures Inv(Continue(s, events))
  {
    if events != [] {
      var s', e := Continue(s, events[..|events| - 1]), events[|events| - 1];
      ContinueKeepsInv(s, events[..|events| - 1]);
      if e.Advance? {
        if Enabled(s', e.t) {
          NextKeepsInv(s', e.t);
        }
      } else {
        OtherKeepsInv(s', e);
      }
    }
  }

  /** In every state of every run: no wake-up is lost, and the queue is first in, first out. */
  lemma Safe<T>(events: seq<Event<T>>)
    ensures var s := Continue(Initial(), events);
            && (s.q != [] && Sleeper(s) ==> Pending(s))
            && s.removed + s.q == s.pushed
  {
    ContinueKeepsInv(Initial(), events);
  }

  // ---------------------------------------------------------------------------------------
  // Progress

  ghost predicate Unfinished<T>(s: State<T>, t: nat) {
    t < |s.pcs| && !s.pcs[t].Returned?
  }

  /** Someone who does not sleep can move, or the owner of the mutex can. */
  lemma AwakeMoves<T>(s: State<T>, t: nat) returns (u: nat)
    requires Mutex(s) && Unfinished(s, t) && s.pcs[t] != Asleep(false)
    ensures Enabled(s, u)
  {
    if Enabled(s, t) {
      u := t;
    } else {
      u :| u in s.owner;
    }
  }

  /** With something in the queue, an unfinished call implies that someone can move. */
  lemma NoStall<T>(events: seq<Event<T>>, t: nat) returns (u: nat)
    requires var s := Continue(Initial(), events); s.q != [] && Unfinished(s, t)
    ensures Enabled(Continue(Initial(), events), u)
  {
    var s := Continue(Initial(), events);
    ContinueKeepsInv(Initial(), events);
    if s.pcs[t] == Asleep(false) {
      assert Sleeper(s);
      var w :| 0 <= w < |s.pcs| && s.pcs[w].PushNotify?;
      u := AwakeMoves(s, w);
    } else {
      u := AwakeMoves(s, t);
    }
  }

  // ---------------------------------------------------------------------------------------
  // Stopping

  /** Someone has tested the flag and is about to wait. */
  ghost predicate AboutToWait<T>(s: State<T>) {
    exists t :: 0 <= t < |s.pcs| && s.pcs[t].PopWait?
  }

  /** The queue is stopped, and nobody sleeps or is about to. */
  ghost predicate Clear<T>(s: State<T>) {
    && s.stopped
    && forall t :: 0 <= t < |s.pcs| ==> !s.pcs[t].PopWait? && s.pcs[t] != Asleep(false)
  }

  lemma StopClears<T>(s: State<T>, t: nat)
    requires Enabled(s, t) && s.pcs[t].StopNotify? && s.stopped && !AboutToWait(s)
    ensures Clear(Next(s, t))
  {
  }

  lemma {:induction false} ClearStays<T>(s: State<T>, events: seq<Event<T>>)
    requires Clear(s)
    ensures Clear(Continue(s, events))
  {
    if events != [] {
      ClearStays(s, events[..|events| - 1]);
      ClearAct(Continue(s, events[..|events| - 1]), events[|events| - 1]);
    }
  }

  lemma ClearAct<T>(s: State<T>, e: Event<T>)
    requires Clear(s)
    ensures Clear(Act(s, e))
  {
  }

  /** Whoever is about to notify because of a stop has set the flag, and it is never reset. */
  ghost predicate FlagSet<T>(s: State<T>) {
    forall t :: 0 <= t < |s.pcs| && s.pcs[t].StopNotify? ==> s.stopped
  }

  lemma {:induction false} ContinueFlagSet<T>(s: State<T>, events: seq<Event<T>>)
    requires FlagSet(s)
    ensures FlagSet(Continue(s, events))
  {
    if events != [] {
      ContinueFlagSet(s, events[..|events| - 1]);
      FlagSetAct(Continue(s, events[..|events| - 1]), events[|events| - 1]);
    }
  }

  lemma FlagSetAct<T>(s: State<T>, e: Event<T>)
    requires FlagSet(s)
    ensures FlagSet(Act(s, e))
  {
  }

  function Weight<T>(pc: Pc<T>): nat {
    match pc
    case PopLock => 6
    case PopFirst => 5
    case PopWait => 6
    case Asleep(_) => 5
    case PopRelock => 4
    case PopLoop => 3
    case PopTest => 2
    case PushLock(_) => 3
    case PushBody(_) => 2
    case PushNotify => 1
    case FlushLock => 2
    case FlushLoop(_) => 1
    case StopSet => 2
    case StopNotify => 1
    case Returned(_) => 0
  }

  function Work<T>(pcs: seq<Pc<T>>): nat {
    if pcs == [] then 0 else Weight(pcs[|pcs| - 1]) + Work(pcs[..|pcs| - 1])
  }

  lemma {:induction false} WorkUpdate<T>(pcs: seq<Pc<T>>, t: nat, pc: Pc<T>)
    requires t < |pcs|
    ensures Work(pcs[t := pc]) + Weight(pcs[t]) == Work(pcs) + Weight(pc)
  {
    var n := |pcs| - 1;
    if t < n {
      WorkUpdate(pcs[..n], t, pc);
      assert pcs[t := pc][..n] == pcs[..n][t := pc];
    } else {
      assert pcs[t := pc][..n] == pcs[..n];
    }
  }

  lemma {:induction false} WorkNotify<T>(pcs: seq<Pc<T>>)
    ensures Work(NotifyAll(pcs)) == Work(pcs)
  {
    if pcs != [] {
      WorkNotify(pcs[..|pcs| - 1]);
      assert NotifyAll(pcs)[..|pcs| - 1] == NotifyAll(pcs[..|pcs| - 1]);
    }
  }

  lemma WeightFalls<T>(s: State<T>, t: nat)
    requires Clear(s) && Enabled(s, t)
    ensures var s' := Next(s, t);
            && |s'.pcs| == |s.pcs|
            && (Weight(s'.pcs[t]) < Weight(s.pcs[t]) || (Weight(s'.pcs[t]) == Weight(s.pcs[t]) && |s'.q| < |s.q|))
            && s'.pcs == (if s.pcs[t].PushNotify? || s.pcs[t].StopNotify? then NotifyAll(s.pcs) else s.pcs)[t :=
                    s'.pcs[t]]
  {
  }

  lemma WorkFalls<T>(s: State<T>, t: nat)
    requires Clear(s) && Enabled(s, t)
    ensures var s' := Next(s, t); Work(s'.pcs) < Work(s.pcs) || (Work(s'.pcs) == Work(s.pcs) && |s'.q| < |s.q|)
  {
    WeightFalls(s, t);
    WorkNotify(s.pcs);
    WorkUpdate(NotifyAll(s.pcs), t, Next(s, t).pcs[t]);
    WorkUpdate(s.pcs, t, Next(s, t).pcs[t]);
    hide Next, Work, Weight;
  }

  /** Once the queue is clear, all calls can be brought to an end. */
  lemma {:induction false} ClearCompletes<T>(s: State<T>) returns (events: seq<Event<T>>)
    requires Mutex(s) && Clear(s)
    ensures forall i :: 0 <= i < |events| ==> events[i].Advance?
    ensures forall t: nat :: !Unfinished(Continue(s, events), t)
    decreases Work(s.pcs), |s.q|
  {
    events := [];
    if t: nat :| Unfinished(s, t) {
      var u := AwakeMoves(s, t);
      var s' := Next(s, u);
      NextMutex(s, u);
      ClearAct(s, Advance(u));
      WorkFalls(s, u);
      var rest := ClearCompletes(s');
      events := [Advance(u)] + rest;
      ContinueFirst(s, Advance(u), rest);
    }
  }

  lemma {:induction false} ContinueFirst<T>(s: State<T>, e: Event<T>, rest: seq<Event<T>>)
    ensures Continue(s, [e] + rest) == Continue(Act(s, e), rest)
  {
    hide Act;
    if rest == [] {
      assert [e] + rest == [e] && [e][..0] == [];
    } else {
      ContinueFirst(s, e, rest[..|rest| - 1]);
      assert ([e] + rest)[..|rest|] == [e] + rest[..|rest| - 1];
    }
  }

  /** A stop that notifies while nobody is about to wait releases all poppers: none sleeps afterwards, whatever
      happens next, and all calls can come to an end. */
  lemma StopReleases<T>(events: seq<Event<T>>, t: nat, more: seq<Event<T>>) returns (end: seq<Event<T>>)
    requires var s := Continue(Initial(), events); Enabled(s, t) && s.pcs[t].StopNotify? && !AboutToWait(s)
    ensures var s' := Continue(Next(Continue(Initial(), events), t), more);
            Clear(s') && forall u: nat :: !Unfinished(Continue(s', end), u)
  {
    var s := Continue(Initial(), events);
    ContinueKeepsInv(Initial(), events);
    ContinueFlagSet(Initial(), events);
    StopClears(s, t);
    NextKeepsInv(s, t);
    ContinueKeepsInv(Next(s, t), more);
    ClearStays(Next(s, t), more);
    end := ClearCompletes(Continue(Next(s, t), more));
  }

  /** No push or stop is in progress. */
  ghost predicate OnlyReaders<T>(s: State<T>) {
    forall u :: 0 <= u < |s.pcs| ==>
        !s.pcs[u].PushLock? && !s.pcs[u].PushBody? && !s.pcs[u].PushNotify?
        && !s.pcs[u].StopSet? && !s.pcs[u].StopNotify?
  }

  /** An event that starts no push and no stop, and is no wake-up without cause. */
  predicate Still<T>(e: Event<T>) {
    !e.WakeUp? && (e.Begin? ==> !e.call.Push? && !e.call.Stop?)
  }

  /** A popper that sleeps after the last notification sleeps for ever. */
  lemma {:induction false} SleepsForEver<T>(s: State<T>, t: nat, more: seq<Event<T>>)
    requires OnlyReaders(s) && t < |s.pcs| && s.pcs[t] == Asleep(false) && forall i :: 0 <= i < |more| ==>
               Still(more[i])
    ensures var s' := Continue(s, more); OnlyReaders(s') && t < |s'.pcs| && s'.pcs[t] == Asleep(false)
  {
    if more != [] {
      SleepsForEver(s, t, more[..|more| - 1]);
      SleepsOn(Continue(s, more[..|more| - 1]), t, more[|more| - 1]);
    }
  }

  lemma SleepsOn<T>(s: State<T>, t: nat, e: Event<T>)
    requires OnlyReaders(s) && t < |s.pcs| && s.pcs[t] == Asleep(false) && Still(e)
    ensures OnlyReaders(Act(s, e)) && t < |Act(s, e).pcs| && Act(s, e).pcs[t] == Asleep(false)
  {
  }

  /** Whoever was about to wait when the stop notified can fall asleep after it. */
  lemma WaiterSleeps<T>(s: State<T>, t: nat, p: nat) returns (more: seq<Event<T>>)
    requires Enabled(s, t) && s.pcs[t].StopNotify? && p < |s.pcs| && s.pcs[p].PopWait?
    ensures Sleeper(Continue(Next(s, t), more))
  {
    var s' := Next(s, t);
    var none: seq<Event<T>> := [];
    ContinueLast(s', none, Advance(p));
    more := none + [Advance(p)];
    assert Continue(s', none) == s' && Enabled(s', p);
    assert Next(s', p).pcs[p] == Asleep(false);
  }

  /** After a stop has notified, somebody can be left asleep exactly if somebody was about to wait when it did. */
  lemma StopStrandsIff<T>(events: seq<Event<T>>, t: nat)
    requires var s := Continue(Initial(), events); Enabled(s, t) && s.pcs[t].StopNotify?
    ensures var s := Continue(Initial(), events);
            AboutToWait(s) <==> exists more: seq<Event<T>> :: Sleeper(Continue(Next(s, t), more))
  {
    var s := Continue(Initial(), events);
    hide Continue, Next;
    if AboutToWait(s) {
      var p :| 0 <= p < |s.pcs| && s.pcs[p].PopWait?;
      var more := WaiterSleeps(s, t, p);
      assert Sleeper(Continue(Next(s, t), more));
    } else {
      forall more: seq<Event<T>>
        ensures !Sleeper(Continue(Next(s, t), more))
      {
        var end := StopReleases(events, t, more);
      }
    }
  }

  lemma ContinueLast<T>(s: State<T>, events: seq<Event<T>>, e: Event<T>)
    ensures Continue(s, events + [e]) == Act(Continue(s, events), e)
  {
    hide Act;
    assert (events + [e])[..|events|] == events;
  }

  lemma More<T>(events: seq<Event<T>>, s: State<T>, e: Event<T>) returns (events': seq<Event<T>>, s': State<T>)
    requires s == Continue(Initial(), events)
    ensures s' == Act(s, e) && s' == Continue(Initial(), events')
  {
    ContinueLast(Initial(), events, e);
    events', s' := events + [e], Act(s, e);
  }

  lemma ExamplePush<T>(x: T) returns (events: seq<Event<T>>, s: State<T>)
    ensures s == Continue(Initial(), events) == State([x], false, {}, [Returned(Nothing)], [x], [])
  {
    hide Continue;
    events := [];
    ContinueNone(Initial<T>());
    s := Initial();
    events, s := More(events, s, Begin(Push(x)));
    assert s.pcs == [PushLock(x)];
    events, s := More(events, s, Advance(0));
    assert s.pcs == [PushBody(x)];
    events, s := More(events, s, Advance(0));
    assert s.pcs == [PushNotify] && s.q == [x];
    events, s := More(events, s, Advance(0));
    assert s.pcs == [Returned(Nothing)];
  }

  lemma ContinueNone<T>(s: State<T>)
    ensures Continue(s, []) == s
  {
  }

  lemma ExamplePop<T>(x: T) returns (events: seq<Event<T>>, s: State<T>)
    ensures s == Continue(Initial(), events) == State([x], false, {1}, [Returned(Nothing), PopLoop], [x], [])
  {
    hide Continue;
    events, s := ExamplePush(x);
    events, s := More(events, s, Begin(Pop));
    assert s.pcs == [Returned(Nothing), PopLock];
    events, s := More(events, s, Advance(1));
    assert s.pcs == [Returned(Nothing), PopFirst];
    events, s := More(events, s, Advance(1));
    assert s.pcs == [Returned(Nothing), PopLoop];
  }

  /** A pop that finds an element takes it, even if the queue was stopped meanwhile: an element is pushed, a pop gets
      past its first test of the flag, and a stop sets the flag before the pop goes on. */
  lemma PopsAlthoughStopped<T>(x: T) returns (events: seq<Event<T>>, s: State<T>)
    ensures s == Continue(Initial(), events) && s.stopped && s.pcs == [Returned(Nothing), Returned(Got(x)), StopNotify]
  {
    hide Continue;
    events, s := ExamplePop(x);
    events, s := More(events, s, Begin(Stop));
    assert s.pcs == [Returned(Nothing), PopLoop, StopSet];
    events, s := More(events, s, Advance(2));
    assert s.pcs == [Returned(Nothing), PopLoop, StopNotify];
    events, s := More(events, s, Advance(1));
  }

  // ---------------------------------------------------------------------------------------
  // Elements after the stop

  ghost predicate HasGot<T>(s: State<T>, t: nat) {
    t < |s.pcs| && s.pcs[t].Returned? && s.pcs[t].result.Got?
  }

  /** The pop is past its first test of the flag and has not seen the queue empty since it last took the mutex. */
  ghost predicate MayGet<T>(s: State<T>, t: nat) {
    && t < |s.pcs|
    && ((s.pcs[t].PopLoop? && s.q != []) || s.pcs[t].PopWait? || s.pcs[t].Asleep? || s.pcs[t].PopRelock?)
  }

  /** The queue is stopped, and call `t` is not in a position to take an element. */
  ghost predicate Barred<T>(s: State<T>, t: nat) {
    s.stopped && !MayGet(s, t) && !HasGot(s, t)
  }

  lemma BarredNext<T>(s: State<T>, t: nat, u: nat)
    requires Mutex(s) && Barred(s, t) && Enabled(s, u)
    ensures Barred(Next(s, u), t)
  {
    if t < |s.pcs| && u != t && s.pcs[t].PopLoop? && s.pcs[u].PushBody? {
      OnlyOwner(s, t, u);
    }
  }

  lemma BarredAct<T>(s: State<T>, t: nat, e: Event<T>)
    requires Inv(s) && Barred(s, t)
    ensures Barred(Act(s, e), t)
  {
    if e.Advance? && Enabled(s, e.t) {
      BarredNext(s, t, e.t);
    }
  }

  lemma {:induction false} BarredStays<T>(s: State<T>, t: nat, more: seq<Event<T>>)
    requires Inv(s) && Barred(s, t)
    ensures Barred(Continue(s, more), t)
  {
    if more != [] {
      var front := more[..|more| - 1];
      BarredStays(s, t, front);
      ContinueKeepsInv(s, front);
      BarredAct(Continue(s, front), t, more[|more| - 1]);
    }
  }

  /** What the documentation of `pop` promises holds of every call that has not passed its first test when the
      flag is set, begun or not: it never returns an element, whatever happens next. */
  lemma LatePopGetsNothing<T>(events: seq<Event<T>>, t: nat, more: seq<Event<T>>)
    requires var s := Continue(Initial(), events);
             s.stopped && (t >= |s.pcs| || s.pcs[t].PopLock? || s.pcs[t].PopFirst?)
    ensures !HasGot(Continue(Continue(Initial(), events), more), t)
  {
    var s := Continue(Initial(), events);
    ContinueKeepsInv(Initial(), events);
    BarredStays(s, t, more);
  }

  /** A way on from `s`, without wake-ups that have no cause. */
  ghost predicate Leads<T>(s: State<T>, more: seq<Event<T>>, s': State<T>) {
    Continue(s, more) == s' && forall i :: 0 <= i < |more| ==> !more[i].WakeUp?
  }

  lemma Then<T>(s: State<T>, more: seq<Event<T>>, s1: State<T>, e: Event<T>) returns (more': seq<Event<T>>)
    requires Leads(s, more, s1) && !e.WakeUp?
    ensures Leads(s, more', Act(s1, e))
  {
    ContinueLast(s, more, e);
    more' := more + [e];
  }

  /** The owner of the mutex can be brought to release it, and nobody else moves meanwhile. */
  lemma {:induction false} Release<T>(s: State<T>, more: seq<Event<T>>, s1: State<T>)
      returns (more': seq<Event<T>>, s': State<T>)
    requires Inv(s1) && s1.stopped && Leads(s, more, s1)
    ensures Inv(s') && s'.stopped && Leads(s, more', s') && s'.owner == {} && |s'.pcs| == |s1.pcs|
    ensures forall u: nat :: u < |s1.pcs| && u !in s1.owner ==> s'.pcs[u] == s1.pcs[u]
    decreases if s1.owner == {} then 0 else 1, Turns(s1)
  {
    if s1.owner == {} {
      more', s' := more, s1;
    } else {
      var w :| w in s1.owner;
      assert Enabled(s1, w) && Owns(s1.pcs[w]);
      NextKeepsInv(s1, w);
      var more1 := Then(s, more, s1, Advance(w));
      OwnerTurn(s1, w);
      more', s' := Release(s, more1, Next(s1, w));
    }
  }

  /** How many steps the owner of the mutex has to take at most. */
  ghost function Turns<T>(s: State<T>): nat {
    |s.q| + if exists w :: w in s.owner && w < |s.pcs| && (s.pcs[w].PopFirst? || s.pcs[w].PopLoop?) then 3 else 0
  }

  lemma OwnerTurn<T>(s: State<T>, w: nat)
    requires Inv(s) && s.stopped && w in s.owner && Enabled(s, w)
    ensures var s' := Next(s, w);
            && s'.stopped && |s'.pcs| == |s.pcs|
            && (forall u: nat :: u < |s.pcs| && u != w ==> s'.pcs[u] == s.pcs[u])
            && (s'.owner == {} || (s'.owner == s.owner && Turns(s') < Turns(s)))
  {
    assert forall u: nat :: u in s.owner ==> u == w;
  }

  /** One event more on the way, after which the invariant still holds. */
  lemma Onward<T>(s: State<T>, more: seq<Event<T>>, s1: State<T>, e: Event<T>)
      returns (more': seq<Event<T>>, s': State<T>)
    requires Inv(s1) && Leads(s, more, s1) && !e.WakeUp?
    ensures s' == Act(s1, e) && Inv(s') && Leads(s, more', s')
  {
    hide Leads, Next;
    more' := Then(s, more, s1, e);
    s' := Act(s1, e);
    if e.Advance? {
      if Enabled(s1, e.t) {
        NextKeepsInv(s1, e.t);
      }
    } else {
      OtherKeepsInv(s1, e);
    }
  }

  /** With the mutex free, an element can be pushed. */
  lemma PushOne<T>(s: State<T>, more: seq<Event<T>>, s1: State<T>, x: T) returns (more': seq<Event<T>>, s': State<T>)
    requires Inv(s1) && s1.owner == {} && Leads(s, more, s1)
    ensures Inv(s') && s'.owner == {} && Leads(s, more', s') && s'.q == s1.q + [x]
    ensures |s1.pcs| < |s'.pcs| && forall u :: 0 <= u < |s1.pcs| ==> s'.pcs[u] == s1.pcs[u]
  {
    hide Inv, Leads;
    var n := |s1.pcs|;
    more', s' := Onward(s, more, s1, Begin(Push(x)));
    assert s'.pcs[n] == PushLock(x) && Enabled(s', n);
    more', s' := Onward(s, more', s', Advance(n));
    assert s'.pcs[n] == PushBody(x) && Enabled(s', n);
    more', s' := Onward(s, more', s', Advance(n));
  }

  /** With the mutex free and an element there, a waiting pop can be woken. */
  lemma Rouse<T>(s: State<T>, more: seq<Event<T>>, s1: State<T>, t: nat) returns (more': seq<Event<T>>, s': State<T>)
    requires Inv(s1) && s1.owner == {} && Leads(s, more, s1) && s1.q != []
    requires t < |s1.pcs| && (s1.pcs[t].Asleep? || s1.pcs[t].PopRelock?)
    ensures Inv(s') && s'.owner == {} && Leads(s, more', s') && s'.q == s1.q && t < |s'.pcs| && s'.pcs[t].PopRelock?
  {
    more', s' := more, s1;
    if s'.pcs[t] == Asleep(false) {
      assert Sleeper(s');
      var w :| 0 <= w < |s'.pcs| && s'.pcs[w].PushNotify?;
      more', s' := Onward(s, more', s', Advance(w));
      assert s'.pcs[t] == Asleep(true);
    }
    if s'.pcs[t].Asleep? {
      more', s' := Onward(s, more', s', Advance(t));
    }
  }

  /** A pop that may still get an element can be led to one. */
  lemma Fetch<T>(s: State<T>, t: nat, x: T) returns (more: seq<Event<T>>, s': State<T>)
    requires Inv(s) && s.stopped && MayGet(s, t)
    ensures Leads(s, more, s') && HasGot(s', t)
  {
    more, s' := [], s;
    if !s.pcs[t].PopLoop? {
      if s.pcs[t].PopWait? {
        assert t in s.owner && Enabled(s, t);
        more, s' := Onward(s, more, s', Advance(t));
      }
      more, s' := Release(s, more, s');
      more, s' := PushOne(s, more, s', x);
      more, s' := Rouse(s, more, s', t);
      assert Enabled(s', t);
      more, s' := Onward(s, more, s', Advance(t));
    }
    assert s'.pcs[t].PopLoop? && s'.q != [] && Enabled(s', t);
    more, s' := Onward(s, more, s', Advance(t));
  }

  /** Exactly which calls can still return an element after the flag is set: in every reachable stopped state, a call
      that has not returned one can come to it, even without wake-ups that have no cause, if and only if it is a
      pop before a non-empty queue, about to wait, asleep, or just woken. */
  lemma GetsIff<T>(events: seq<Event<T>>, t: nat, x: T)
    requires Continue(Initial(), events).stopped && !HasGot(Continue(Initial(), events), t)
    ensures var s := Continue(Initial(), events);
            MayGet(s, t) <==> exists more: seq<Event<T>>, s': State<T> :: Leads(s, more, s') && HasGot(s', t)
    ensures var s := Continue(Initial(), events);
            !MayGet(s, t) ==> forall more: seq<Event<T>> :: !HasGot(Continue(s, more), t)
  {
    var s := Continue(Initial(), events);
    ContinueKeepsInv(Initial(), events);
    if MayGet(s, t) {
      var more, s' := Fetch(s, t, x);
    } else {
      forall more: seq<Event<T>>
        ensures !HasGot(Continue(s, more), t)
      {
        BarredStays(s, t, more);
      }
    }
  }

  /** A run in which a popper is about to wait when the stop is about to notify. */
  lemma StrandExample<T>() returns (events: seq<Event<T>>, s: State<T>)
    ensures s == Continue(Initial(), events) && s.pcs == [PopWait, StopNotify] && AboutToWait(s)
  {
    hide Continue;
    events := [];
    ContinueNone(Initial<T>());
    s := Initial();
    events, s := More(events, s, Begin(Pop));
    assert s.pcs == [PopLock];
    events, s := More(events, s, Advance(0));
    assert s.pcs == [PopFirst];
    events, s := More(events, s, Advance(0));
    assert s.pcs == [PopLoop];
    events, s := More(events, s, Advance(0));
    assert s.pcs == [PopTest];
    events, s := More(events, s, Advance(0));
    assert s.pcs == [PopWait];
    events, s := More(events, s, Begin(Stop));
    assert s.pcs == [PopWait, StopSet];
    events, s := More(events, s, Advance(1));
    assert s.pcs[0].PopWait?;
  }
}
