/** Audit events, and the recorder that writes each one durably and ships batches of them. */
module Audit {
  import opened Binary

  /** Strings are byte strings; nothing says that they are valid UTF-8. The time is given by
      its JSON text, empty for a time that has none (a year beyond 9999), and the fields of
      the map are listed in the order in which they are encoded. */
  datatype Event = Event(at: Bytes, action: Bytes, outcome: Bytes, actorID: Bytes, actorName: Bytes,
                         object_: Bytes, reason: Bytes, fields: seq<(Bytes, Bytes)>)

  const QUEUE_DEPTH := 1024
  const FLUSH_BATCH := 64

  function Concat(batches: seq<seq<Event>>): seq<Event> {
    if batches == [] then []
    else Concat(batches[..|batches| - 1]) + batches[|batches| - 1]
  }

  lemma ConcatAppend(batches: seq<seq<Event>>, batch: seq<Event>)
    ensures Concat(batches + [batch]) == Concat(batches) + batch
  {
    assert (batches + [batch])[..|batches|] == batches;
  }

  /** A flush of nothing hands over nothing. */
  function Flushed(handed: seq<seq<Event>>, batch: seq<Event>): seq<seq<Event>> {
    if batch == [] then handed else handed + [batch]
  }

  lemma FlushedConcat(handed: seq<seq<Event>>, batch: seq<Event>)
    ensures Concat(Flushed(handed, batch)) == Concat(handed) + batch
  {
    ConcatAppend(handed, batch);
  }

  // The recorder, undisturbed ------------------------------------------------------------------

  /** `written` stands for the durable sink, `handed` for the batches given to the shipping
      sink (which logs its own failures), `batch` for the local slice of the shipping loop.
      Either sink may be missing. */
  class Recorder {
    const writes: bool
    const ships: bool
    var written: seq<Event>
    var queue: seq<Event>
    var dropped: nat
    var batch: seq<Event>
    var handed: seq<seq<Event>>

    ghost predicate Valid()
      reads this
    {
      |queue| <= QUEUE_DEPTH && |batch| < FLUSH_BATCH
    }

    /** Everything the shipping side has accepted, oldest first. */
    ghost function Accepted(): seq<Event>
      reads this
    {
      Concat(handed) + batch + queue
    }

    constructor (writes: bool, ships: bool)
      ensures Valid() && Accepted() == [] && written == [] && dropped == 0
      ensures this.writes == writes && this.ships == ships
    {
      this.writes, this.ships := writes, ships;
      written, queue, dropped, batch, handed := [], [], 0, [], [];
    }

    /** A full queue drops the shipment, never the durable write. `e` is the event with its
        time and outcome filled in. */
    method Record(e: Event, durableOk: bool) returns (ok: bool)
      requires Valid()
      modifies this
      ensures Valid() && ok == (durableOk || !writes)
      ensures !ok ==> written == old(written) && Accepted() == old(Accepted()) && dropped == old(dropped)
      ensures ok ==> written == old(written) + if writes then [e] else []
      ensures ok && ships && old(|queue|) < QUEUE_DEPTH ==> Accepted() == old(Accepted()) + [e] && dropped == old(dropped)
      ensures ok && ships && old(|queue|) == QUEUE_DEPTH ==> Accepted() == old(Accepted()) && dropped == old(dropped) + 1
      ensures ok && !ships ==> Accepted() == old(Accepted()) && dropped == old(dropped)
    {
      if writes {
        if !durableOk {
          return false;
        }
        written := written + [e];
      }
      if ships {
        if |queue| < QUEUE_DEPTH {
          queue := queue + [e];
        } else {
          dropped := dropped + 1;
        }
      }
      return true;
    }

    method Flush()
      requires |queue| <= QUEUE_DEPTH
      modifies `batch, `handed
      ensures Valid() && batch == [] && handed == Flushed(old(handed), old(batch))
      ensures Accepted() == old(Accepted())
    {
      FlushedConcat(handed, batch);
      if batch != [] {
        handed := handed + [batch];
        batch := [];
      }
    }

    /** The receive branch of the shipping loop. */
    method Receive()
      requires Valid() && queue != []
      modifies `batch, `handed, `queue
      ensures Valid() && Accepted() == old(Accepted()) && queue == old(queue)[1..]
    {
      batch := batch + [queue[0]];
      queue := queue[1..];
      if |batch| >= FLUSH_BATCH {
        Flush();
      }
    }

    /** The done branch: empty the queue into the batch, then one last flush. */
    method Drain()
      requires Valid()
      modifies `batch, `handed, `queue
      ensures Valid() && queue == [] && batch == [] && Concat(handed) == old(Accepted())
    {
      while queue != []
        invariant |queue| <= QUEUE_DEPTH && Accepted() == old(Accepted())
        decreases |queue|
      {
        batch := batch + [queue[0]];
        queue := queue[1..];
      }
      Flush();
      assert Accepted() == Concat(handed);
    }
  }

  // Callers, the shipping loop and Close, interleaved ----------------------------------------------

  datatype Loop = Waiting | Flushing | Draining | Leaving | Exited

  /** `inflight` holds the events whose durable append is done and whose enqueue is not;
      `accepted` and `lost` remember what the queue took and what it refused. */
  datatype Sys = Sys(durable: seq<Event>, inflight: multiset<Event>, accepted: seq<Event>, lost: seq<Event>,
                     dropped: nat, queue: seq<Event>, batch: seq<Event>, handed: seq<seq<Event>>,
                     loop: Loop, closing: bool)

  datatype Action =
    | Append(e: Event)
    | Enqueue(e: Event)
    | Take
    | Tick
    | FlushReturns
    | CloseCalled
    | SeeDone
    | DrainOne
    | DrainEnd
    | Exit

  ghost predicate Init(s: Sys) {
    s == Sys([], multiset{}, [], [], 0, [], [], [], Waiting, false)
  }

  ghost predicate Step(s: Sys, a: Action, t: Sys) {
    match a
    case Append(e) => t == s.(durable := s.durable + [e], inflight := s.inflight + multiset{e})
    case Enqueue(e) =>
      (&& e in s.inflight
       && t == if |s.queue| < QUEUE_DEPTH
               then s.(inflight := s.inflight - multiset{e}, accepted := s.accepted + [e], queue := s.queue + [e])
               else s.(inflight := s.inflight - multiset{e}, lost := s.lost + [e], dropped := s.dropped + 1))
    case Take =>
      (&& s.loop.Waiting? && s.queue != []
       && var batch := s.batch + [s.queue[0]];
          t == if |batch| >= FLUSH_BATCH
               then s.(queue := s.queue[1..], batch := [], handed := Flushed(s.handed, batch), loop := Flushing)
               else s.(queue := s.queue[1..], batch := batch))
    case Tick => s.loop.Waiting? && t == s.(batch := [], handed := Flushed(s.handed, s.batch), loop := Flushing)
    case FlushReturns => s.loop.Flushing? && t == s.(loop := Waiting)
    case CloseCalled => !s.closing && t == s.(closing := true)
    case SeeDone => s.loop.Waiting? && s.closing && t == s.(loop := Draining)
    case DrainOne =>
      s.loop.Draining? && s.queue != [] && t == s.(queue := s.queue[1..], batch := s.batch + [s.queue[0]])
    case DrainEnd =>
      (s.loop.Draining? && s.queue == []
       && t == s.(batch := [], handed := Flushed(s.handed, s.batch), loop := Leaving))
    case Exit => s.loop.Leaving? && t == s.(loop := Exited)
  }

  /** Nothing is lost or reordered between the queue and the shipping sink. */
  ghost predicate InOrder(s: Sys) {
    Concat(s.handed) + s.batch + s.queue == s.accepted
  }

  /** Every durable event is accepted, counted as dropped, or still on its way. */
  ghost predicate Balanced(s: Sys) {
    multiset(s.durable) == multiset(s.accepted) + multiset(s.lost) + s.inflight && |s.lost| == s.dropped
  }

  ghost predicate Bounded(s: Sys) {
    && |s.queue| <= QUEUE_DEPTH
    && (s.loop.Waiting? ==> |s.batch| < FLUSH_BATCH)
    && (s.loop.Flushing? || s.loop.Leaving? || s.loop.Exited? ==> s.batch == [])
    && (s.loop.Draining? || s.loop.Leaving? || s.loop.Exited? ==> s.closing)
  }

  ghost predicate Inv(s: Sys) { InOrder(s) && Balanced(s) && Bounded(s) }

  lemma Regrouped(head: seq<Event>, batch: seq<Event>, queue: seq<Event>, e: Event)
    ensures queue != [] ==> head + batch + queue == head + (batch + [queue[0]]) + queue[1..]
    ensures head + batch + (queue + [e]) == (head + batch + queue) + [e]
    ensures (head + batch) + [] + queue == head + batch + queue
  {
  }

  lemma TakenKeepsOrder(handed: seq<seq<Event>>, batch: seq<Event>, queue: seq<Event>)
    ensures (queue != [] ==>
      Concat(Flushed(handed, batch + [queue[0]])) + [] + queue[1..] == Concat(handed) + batch + queue)
  {
    hide Concat, Flushed;
    if queue != [] {
      FlushedConcat(handed, batch + [queue[0]]);
      Regrouped(Concat(handed), batch, queue, queue[0]);
      Regrouped(Concat(handed), batch + [queue[0]], queue[1..], queue[0]);
    }
  }

  lemma OrderKept(s: Sys, a: Action, t: Sys)
    requires InOrder(s) && Bounded(s) && Step(s, a, t)
    ensures InOrder(t)
  {
    hide Concat, Flushed;
    match a {
      case Enqueue(e) => Regrouped(Concat(s.handed), s.batch, s.queue, e);
      case Append(_) =>
      case Take =>
        TakenKeepsOrder(s.handed, s.batch, s.queue);
        Regrouped(Concat(s.handed), s.batch, s.queue, s.queue[0]);
      case DrainOne =>
        TakenKeepsOrder(s.handed, s.batch, s.queue);
        Regrouped(Concat(s.handed), s.batch, s.queue, s.queue[0]);
      case _ =>
        FlushedConcat(s.handed, s.batch);
        assert Concat(s.handed) + s.batch + [] == Concat(s.handed) + s.batch;
        assert (Concat(s.handed) + s.batch) + [] + s.queue == Concat(s.handed) + s.batch + s.queue;
    }
  }

  lemma OneMore(s: seq<Event>, e: Event)
    ensures multiset(s + [e]) == multiset(s) + multiset{e}
  {
  }

  /** One event comes in flight, and one in flight is settled. */
  lemma OneMoves(durable: multiset<Event>, accepted: multiset<Event>, lost: multiset<Event>,
                 inflight: multiset<Event>, e: Event)
    requires durable == accepted + lost + inflight
    ensures durable + multiset{e} == accepted + lost + (inflight + multiset{e})
    ensures e in inflight ==> durable == (accepted + multiset{e}) + lost + (inflight - multiset{e})
    ensures e in inflight ==> durable == accepted + (lost + multiset{e}) + (inflight - multiset{e})
  {
  }

  lemma BalanceKept(s: Sys, a: Action, t: Sys)
    requires Balanced(s) && Step(s, a, t)
    ensures Balanced(t)
  {
    hide Concat, Flushed;
    match a {
      case Append(e) =>
        OneMore(s.durable, e);
        OneMoves(multiset(s.durable), multiset(s.accepted), multiset(s.lost), s.inflight, e);
      case Enqueue(e) =>
        OneMore(s.accepted, e);
        OneMore(s.lost, e);
        OneMoves(multiset(s.durable), multiset(s.accepted), multiset(s.lost), s.inflight, e);
      case _ =>
        assert t.durable == s.durable && t.accepted == s.accepted && t.lost == s.lost && t.inflight == s.inflight;
    }
  }

  lemma BoundsKept(s: Sys, a: Action, t: Sys)
    requires Bounded(s) && Step(s, a, t)
    ensures Bounded(t)
  {
    hide Concat, Flushed;
  }

  lemma StepKeeps(s: Sys, a: Action, t: Sys)
    requires Inv(s) && Step(s, a, t)
    ensures Inv(t)
  {
    hide InOrder, Balanced, Bounded, Step;
    OrderKept(s, a, t);
    BalanceKept(s, a, t);
    BoundsKept(s, a, t);
  }

  ghost predicate Run(states: seq<Sys>, actions: seq<Action>) {
    && |states| == |actions| + 1 && Init(states[0])
    && forall i :: 0 <= i < |actions| ==> Step(states[i], actions[i], states[i + 1])
  }

  lemma {:induction false} RunKeeps(states: seq<Sys>, actions: seq<Action>, n: nat)
    requires Run(states, actions) && n <= |actions|
    ensures InOrder(states[n]) && Balanced(states[n]) && Bounded(states[n])
  {
    hide Step, InOrder, Balanced, Bounded;
    if n == 0 {
      InitOk(states[0]);
    } else {
      RunKeeps(states, actions, n - 1);
      StepKeeps(states[n - 1], actions[n - 1], states[n]);
    }
  }

  lemma InitOk(s: Sys)
    requires Init(s)
    ensures Inv(s)
  {
  }

  /** Durable appends are those accepted, plus those dropped, plus those in flight. */
  lemma Accounting(states: seq<Sys>, actions: seq<Action>, n: nat)
    requires Run(states, actions) && n <= |actions|
    ensures var s := states[n];
      && |s.durable| == |Concat(s.handed)| + |s.batch| + |s.queue| + s.dropped + |s.inflight|
      && Concat(s.handed) <= s.accepted
  {
    hide Step, Concat;
    RunKeeps(states, actions, n);
    var s := states[n];
    assert |multiset(s.durable)| == |s.durable|;
    assert |multiset(s.accepted)| == |s.accepted| && |multiset(s.lost)| == |s.lost|;
  }

  /** What was written durably has been handed over or counted as dropped. */
  ghost predicate Settled(s: Sys) {
    multiset(s.durable) == multiset(Concat(s.handed)) + multiset(s.lost)
  }

  /** No call is between its two steps, and nothing is left behind in the queue. */
  ghost predicate Idle(s: Sys) { s.queue == [] && s.inflight == multiset{} }

  lemma SettledIffIdle(states: seq<Sys>, actions: seq<Action>, n: nat)
    requires Run(states, actions) && n <= |actions| && states[n].loop.Exited?
    ensures Settled(states[n]) <==> Idle(states[n])
  {
    hide Step, Concat;
    RunKeeps(states, actions, n);
    var s := states[n];
    assert multiset(s.accepted) == multiset(Concat(s.handed)) + multiset(s.queue);
    var rest := multiset(s.queue) + s.inflight;
    assert multiset(s.durable) == multiset(Concat(s.handed)) + multiset(s.lost) + rest;
    assert |multiset(s.queue)| == |s.queue|;
    assert |rest| == |s.queue| + |s.inflight|;
    if Settled(s) {
      assert rest == multiset(s.durable) - (multiset(Concat(s.handed)) + multiset(s.lost)) == multiset{};
    }
  }

  ghost predicate Drained(l: Loop) { l.Leaving? || l.Exited? }

  /** Once the queue was found empty nobody reads it again: what comes late stays, and only a
      queue that is full of such events drops another. */
  lemma LateStep(s: Sys, a: Action, t: Sys)
    requires Drained(s.loop) && Step(s, a, t)
    ensures Drained(t.loop)
    ensures Idle(t) <==> Idle(s) && !a.Append?
  {
    hide Concat, Flushed;
    if a.Append? {
      assert a.e in t.inflight;
    } else if a.Enqueue? && |s.queue| < QUEUE_DEPTH {
      assert t.queue[|s.queue|] == a.e;
    }
  }

  /** No call was between its two steps when the queue was found empty, at action d, and none
      appended between then and state n. */
  ghost predicate NoneLate(states: seq<Sys>, actions: seq<Action>, d: nat, n: nat)
    requires d < |states| && n <= |actions|
  {
    states[d].inflight == multiset{} && forall k :: d < k < n ==> !actions[k].Append?
  }

  lemma {:induction false} IdleIffNoneLate(states: seq<Sys>, actions: seq<Action>, d: nat, n: nat)
    requires Run(states, actions) && d < n <= |actions| && actions[d] == DrainEnd
    ensures Drained(states[n].loop)
    ensures Idle(states[n]) <==> NoneLate(states, actions, d, n)
    decreases n
  {
    hide Concat, Flushed;
    assert Step(states[n - 1], actions[n - 1], states[n]);
    if d < n - 1 {
      hide Step;
      IdleIffNoneLate(states, actions, d, n - 1);
      LateStep(states[n - 1], actions[n - 1], states[n]);
    }
  }

  /** Once the loop has exited, having found the queue empty at action d, every durable event has
      been handed over or counted as dropped exactly if no call was between its two steps at
      that moment and none appended later. */
  lemma ExitSettles(states: seq<Sys>, actions: seq<Action>, d: nat, n: nat)
    requires Run(states, actions) && d < n <= |actions| && actions[d] == DrainEnd && states[n].loop.Exited?
    ensures Settled(states[n]) <==> NoneLate(states, actions, d, n)
  {
    hide Run, Settled, Idle, NoneLate;
    SettledIffIdle(states, actions, n);
    IdleIffNoneLate(states, actions, d, n);
  }

  lemma {:induction false} DrainedBefore(states: seq<Sys>, actions: seq<Action>, n: nat) returns (d: nat)
    requires Run(states, actions) && n <= |actions| && Drained(states[n].loop)
    ensures d < n && actions[d] == DrainEnd && states[d].closing
  {
    hide Concat, Flushed;
    assert Step(states[n - 1], actions[n - 1], states[n]);
    if Drained(states[n - 1].loop) {
      d := DrainedBefore(states, actions, n - 1);
    } else {
      d := n - 1;
      RunKeeps(states, actions, d);
    }
  }

  lemma {:induction false} StaysClosing(states: seq<Sys>, actions: seq<Action>, i: nat, j: nat)
    requires Run(states, actions) && i <= j <= |actions| && states[i].closing
    ensures states[j].closing
    decreases j
  {
    hide Concat, Flushed;
    if i < j {
      assert Step(states[j - 1], actions[j - 1], states[j]);
      StaysClosing(states, actions, i, j - 1);
    }
  }

  lemma {:induction false} StaysQuiet(states: seq<Sys>, actions: seq<Action>, i: nat, n: nat)
    requires Run(states, actions) && i <= n <= |actions| && states[i].inflight == multiset{}
    requires forall k :: i <= k < n ==> !actions[k].Append?
    ensures states[n].inflight == multiset{}
    decreases n
  {
    hide Concat, Flushed;
    if i < n {
      assert Step(states[n - 1], actions[n - 1], states[n]);
      StaysQuiet(states, actions, i, n - 1);
    }
  }

  /** When no Record overlaps Close, its return finds every durable event handed over, in
      order, or counted as dropped. */
  lemma CloseDrains(states: seq<Sys>, actions: seq<Action>, i: nat, n: nat)
    requires Run(states, actions) && i < n <= |actions|
    requires actions[i] == CloseCalled && states[i].inflight == multiset{}
    requires forall k :: i <= k < n ==> !actions[k].Append?
    requires states[n].loop.Exited?
    ensures Settled(states[n])
    ensures Concat(states[n].handed) == states[n].accepted && |states[n].lost| == states[n].dropped
  {
    var d := DrainedBefore(states, actions, n);
    assert Step(states[i], actions[i], states[i + 1]);
    hide Step, Concat;
    if d <= i { StaysClosing(states, actions, d, i); }
    StaysQuiet(states, actions, i, d);
    ExitSettles(states, actions, d, n);
    SettledIffIdle(states, actions, n);
    RunKeeps(states, actions, n);
  }

  /** From every reachable state in which the loop has yet to find its queue empty, one more call
      can come to nothing: appended now, and enqueued when the loop is gone, its event stays
      in the queue, neither handed over nor counted. */
  lemma OverlapStrands(states: seq<Sys>, actions: seq<Action>, e: Event) returns (u: seq<Sys>, b: seq<Action>)
    requires Run(states, actions) && !Drained(states[|actions|].loop)
    ensures Run(u, b) && states <= u && actions <= b
    ensures u[|b|].loop.Exited? && u[|b|].queue == [e] && u[|b|].durable == states[|actions|].durable + [e]
    ensures u[|b|].inflight == states[|actions|].inflight && u[|b|].dropped == states[|actions|].dropped
    ensures !Settled(u[|b|])
  {
    var s := states[|actions|];
    u, b := Extend(states, actions, Append(e), s.(durable := s.durable + [e], inflight := s.inflight + multiset{e}));
    u, b := Drain(u, b);
    var x := u[|b|];
    assert x.inflight - multiset{e} == s.inflight;
    u, b := Extend(u, b, Enqueue(e),
                   x.(inflight := x.inflight - multiset{e}, accepted := x.accepted + [e], queue := x.queue + [e]));
    SettledIffIdle(u, b, |b|);
  }

  /** Two states that differ in what the loop does alone. */
  ghost predicate SameCalls(s: Sys, t: Sys) {
    s.durable == t.durable && s.inflight == t.inflight && s.dropped == t.dropped
  }

  /** The loop can always be closed and leave, with an empty queue. */
  lemma Drain(states: seq<Sys>, actions: seq<Action>) returns (u: seq<Sys>, b: seq<Action>)
    requires Run(states, actions) && !Drained(states[|actions|].loop)
    ensures Run(u, b) && states <= u && actions <= b
    ensures u[|b|].loop.Exited? && u[|b|].queue == [] && SameCalls(states[|actions|], u[|b|])
  {
    assert |states| == |actions| + 1;
    hide Run, Concat;
    u, b := DrainStarts(states, actions);
    u, b := DrainOnes(u, b);
    var s := u[|b|];
    u, b := Extend(u, b, DrainEnd, s.(batch := [], handed := Flushed(s.handed, s.batch), loop := Leaving));
    u, b := Extend(u, b, Exit, u[|b|].(loop := Exited));
  }

  lemma DrainStarts(states: seq<Sys>, actions: seq<Action>) returns (u: seq<Sys>, b: seq<Action>)
    requires Run(states, actions) && |states| == |actions| + 1 && !Drained(states[|actions|].loop)
    ensures Run(u, b) && |u| == |b| + 1 && states <= u && actions <= b
    ensures u[|b|].loop.Draining? && SameCalls(states[|actions|], u[|b|])
  {
    hide Run, Concat;
    u, b := states, actions;
    if !u[|b|].closing { u, b := Extend(u, b, CloseCalled, u[|b|].(closing := true)); }
    if u[|b|].loop.Flushing? { u, b := Extend(u, b, FlushReturns, u[|b|].(loop := Waiting)); }
    if u[|b|].loop.Waiting? { u, b := Extend(u, b, SeeDone, u[|b|].(loop := Draining)); }
  }

  lemma {:induction false} DrainOnes(states: seq<Sys>, actions: seq<Action>) returns (u: seq<Sys>, b: seq<Action>)
    requires Run(states, actions) && |states| == |actions| + 1 && states[|actions|].loop.Draining?
    ensures Run(u, b) && |u| == |b| + 1 && states <= u && actions <= b
    ensures u[|b|].loop.Draining? && u[|b|].queue == [] && SameCalls(states[|actions|], u[|b|])
    decreases |states[|actions|].queue|
  {
    hide Run, Concat;
    u, b := states, actions;
    var s := u[|b|];
    if s.queue != [] {
      u, b := Extend(u, b, DrainOne, s.(queue := s.queue[1..], batch := s.batch + [s.queue[0]]));
      u, b := DrainOnes(u, b);
    }
  }

  lemma Extend(states: seq<Sys>, actions: seq<Action>, a: Action, t: Sys) returns (u: seq<Sys>, b: seq<Action>)
    requires Run(states, actions) && |states| == |actions| + 1 && Step(states[|actions|], a, t)
    ensures Run(u, b) && |u| == |b| + 1 && u[|b|] == t && states <= u && actions <= b
  {
    hide Step;
    u, b := states + [t], actions + [a];
    forall i | 0 <= i < |b| ensures Step(u[i], b[i], u[i + 1]) {
      if i < |actions| { assert Step(states[i], actions[i], states[i + 1]); }
    }
  }
}
