/**
 Where every event is (actions/actlogp.h:159-193): from its allocation until it is handled
 and freed, an event is with exactly one thread or in the queue.  The thread that takes an
 event off the queue gets it, and nothing is leaked, handled twice, or changed on the way.
 */
module EventAccount {
  import opened EventThreads

  /** The thread has allocated the event and not yet queued it. */
  predicate Making(pc: PC) { pc.Filled? || pc.Cleared? || pc.QLocked? || pc.QSeen? }

  /** The thread has taken the event off the queue and not yet freed it. */
  predicate Taken(pc: PC) { pc.Handling? || ((pc.GAdvanced? || pc.GSaw? || pc.GDone?) && pc.ans.At?) }

  /** Thread t has the event at address a, before it is queued or after it was taken. */
  ghost predicate Holds(s: State, t: int, a: nat) { t in s.pcs && Private(s.pcs[t]) == At(a) }

  ghost predicate HeldBySome(s: State, a: nat) { exists t :: Holds(s, t, a) }

  /** No leak: every allocated event is in the queue or with a thread. */
  ghost predicate Owned(s: State) {
    forall a :: a in s.heap ==> a in s.chain || HeldBySome(s, a)
  }

  /** The event is the one its message was allocated with. */
  predicate Genuine(s: State, e: Event) { e.id < |s.created| && s.created[e.id] == e.msg }

  ghost predicate NoneTwice(events: seq<Event>) {
    forall i, j :: 0 <= i < j < |events| ==> events[i] != events[j]
  }

  ghost predicate AllGenuine(s: State) {
    && (forall a :: a in s.heap ==> Genuine(s, s.heap[a].event))
    && (forall e :: e in s.delivered ==> Genuine(s, e))
    && (forall a, b :: a in s.heap && b in s.heap && a != b ==> s.heap[a].event != s.heap[b].event)
  }

  /** Which allocated events have been delivered: those that a thread has taken. */
  ghost predicate DeliveredRight(s: State) {
    && NoneTwice(s.delivered)
    && (forall a :: a in s.chain && a in s.heap ==> s.heap[a].event !in s.delivered)
    && (forall t :: t in s.pcs && Making(s.pcs[t]) && s.pcs[t].ev in s.heap ==>
          s.heap[s.pcs[t].ev].event !in s.delivered)
    && (forall t :: t in s.pcs && Taken(s.pcs[t]) && Private(s.pcs[t]).addr in s.heap ==>
          s.heap[Private(s.pcs[t]).addr].event in s.delivered)
  }

  ghost predicate InHeap(s: State, e: Event) { exists a :: a in s.heap && s.heap[a].event == e }

  /** What has been handled was delivered, is gone from memory, and the rest is still there. */
  ghost predicate HandledRight(s: State) {
    && NoneTwice(s.handled)
    && (forall e :: e in s.handled ==> e in s.delivered && !InHeap(s, e))
    && (forall e :: e in s.delivered ==> e in s.handled || InHeap(s, e))
    && (forall i :: 0 <= i < |s.created| ==>
          Event(i, s.created[i]) in s.handled || InHeap(s, Event(i, s.created[i])))
  }

  ghost predicate Accounted(s: State) {
    Owned(s) && AllGenuine(s) && DeliveredRight(s) && HandledRight(s)
  }

  lemma InitAccounted(s: State)
    requires Init(s)
    ensures Accounted(s)
  {
  }

  // -------------------------------------------------------- steps that move nothing

  /** The same events in memory, the same histories, and the same events with each thread. */
  ghost predicate Quiet(t: int, s: State, s': State) {
    && t in s.pcs && t in s'.pcs && s'.pcs == s.pcs[t := s'.pcs[t]]
    && s'.heap.Keys == s.heap.Keys && (forall a :: a in s.heap ==> s'.heap[a].event == s.heap[a].event)
    && s'.chain == s.chain
    && s'.created == s.created && s'.delivered == s.delivered && s'.handled == s.handled
    && Private(s'.pcs[t]) == Private(s.pcs[t])
    && Making(s'.pcs[t]) == Making(s.pcs[t]) && Taken(s'.pcs[t]) == Taken(s.pcs[t])
  }

  lemma QuietOwned(t: int, s: State, s': State)
    requires Owned(s) && Quiet(t, s, s')
    ensures Owned(s')
  {
    forall a | a in s'.heap && a !in s'.chain ensures HeldBySome(s', a) {
      var u :| Holds(s, u, a);
      assert Holds(s', u, a);
    }
  }

  lemma QuietInHeap(t: int, s: State, s': State, e: Event)
    requires Quiet(t, s, s')
    ensures InHeap(s', e) <==> InHeap(s, e)
  {
    if InHeap(s, e) {
      var a :| a in s.heap && s.heap[a].event == e;
      assert a in s'.heap && s'.heap[a].event == e;
    }
    if InHeap(s', e) {
      var a :| a in s'.heap && s'.heap[a].event == e;
      assert a in s.heap && s.heap[a].event == e;
    }
  }

  lemma QuietDelivered(t: int, s: State, s': State)
    requires AllGenuine(s) && DeliveredRight(s) && Quiet(t, s, s')
    ensures AllGenuine(s') && DeliveredRight(s')
  {
  }

  lemma QuietHandled(t: int, s: State, s': State)
    requires HandledRight(s) && Quiet(t, s, s')
    ensures HandledRight(s')
  {
    forall e ensures InHeap(s', e) <==> InHeap(s, e) {
      QuietInHeap(t, s, s', e);
    }
  }

  lemma QuietStep(t: int, s: State, s': State)
    requires Accounted(s) && Quiet(t, s, s')
    ensures Accounted(s')
  {
    QuietOwned(t, s, s');
    QuietDelivered(t, s, s');
    QuietHandled(t, s, s');
  }

  /** All steps but four are of this kind. */
  lemma FilledIsQuiet(t: int, s: State, s': State)
    requires ThreadStep(t, s, s') && s.pcs[t].Filled?
    ensures Quiet(t, s, s')
  {
  }

  lemma MostStepsAreQuiet(t: int, s: State, s': State)
    requires ThreadStep(t, s, s') && s'.heap == s.heap
    requires !s.pcs[t].Filled? && !s.pcs[t].QSeen? && !s.pcs[t].GNext? && !s.pcs[t].Handling?
    requires s.pcs[t].Idle? ==> s'.lock != s.lock
    ensures Quiet(t, s, s')
  {
  }

  // ----------------------------------------------------------- an event is allocated

  lemma MallocInHeap(t: int, s: State, s': State, ev: nat, msg: string, next: Ptr, e: Event)
    requires t in s.pcs && Malloc(s, t, ev, msg, next, s')
    ensures InHeap(s', e) <==> InHeap(s, e) || e == Event(|s.created|, msg)
  {
    assert s'.heap[ev].event == Event(|s.created|, msg);
    if InHeap(s, e) {
      var a :| a in s.heap && s.heap[a].event == e;
      assert a in s'.heap && s'.heap[a].event == e;
    }
    if InHeap(s', e) {
      var a :| a in s'.heap && s'.heap[a].event == e;
      if a != ev { assert a in s.heap && s.heap[a].event == e; }
    }
  }

  lemma MallocOwned(t: int, s: State, s': State, ev: nat, msg: string, next: Ptr)
    requires Owned(s) && t in s.pcs && s.pcs[t].Idle? && Malloc(s, t, ev, msg, next, s')
    ensures Owned(s')
  {
    assert Holds(s', t, ev);
    forall a | a in s'.heap && a !in s'.chain && a != ev ensures HeldBySome(s', a) {
      var u :| Holds(s, u, a);
      assert Holds(s', u, a);
    }
  }

  lemma MallocHandled(t: int, s: State, s': State, ev: nat, msg: string, next: Ptr)
    requires AllGenuine(s) && HandledRight(s) && t in s.pcs && Malloc(s, t, ev, msg, next, s')
    ensures HandledRight(s')
  {
    forall e ensures InHeap(s', e) <==> InHeap(s, e) || e == Event(|s.created|, msg) {
      MallocInHeap(t, s, s', ev, msg, next, e);
    }
  }

  lemma MallocGenuine(t: int, s: State, s': State, ev: nat, msg: string, next: Ptr)
    requires AllGenuine(s) && t in s.pcs && Malloc(s, t, ev, msg, next, s')
    ensures AllGenuine(s') && Event(|s.created|, msg) !in s.delivered
  {
    forall e | Genuine(s, e) ensures Genuine(s', e) {
    }
  }

  lemma MallocDelivered(t: int, s: State, s': State, ev: nat, msg: string, next: Ptr)
    requires Separated(s) && DeliveredRight(s) && ev !in s.chain && Event(|s.created|, msg) !in s.delivered
    requires t in s.pcs && s.pcs[t].Idle? && Malloc(s, t, ev, msg, next, s')
    ensures DeliveredRight(s')
  {
    forall u | u in s'.pcs && Taken(s'.pcs[u]) && Private(s'.pcs[u]).addr in s'.heap
      ensures s'.heap[Private(s'.pcs[u]).addr].event in s'.delivered
    {
      assert u != t && Private(s.pcs[u]).addr in s.heap;
    }
  }

  lemma MallocAccounted(t: int, s: State, s': State, ev: nat, msg: string, next: Ptr)
    requires Inv(s) && Accounted(s) && t in s.pcs && s.pcs[t].Idle? && Malloc(s, t, ev, msg, next, s')
    ensures Accounted(s')
  {
    assert ev !in s.chain;
    MallocOwned(t, s, s', ev, msg, next);
    MallocHandled(t, s, s', ev, msg, next);
    MallocGenuine(t, s, s', ev, msg, next);
    MallocDelivered(t, s, s', ev, msg, next);
  }

  // -------------------------------------------------------------- an event is queued

  lemma QSeenOwned(t: int, s: State, s': State)
    requires Owned(s) && ThreadStep(t, s, s') && s.pcs[t].QSeen?
    ensures Owned(s')
  {
    var ev := s.pcs[t].ev;
    assert ev in s'.chain && Holds(s, t, ev);
    forall a | a in s'.heap && a !in s'.chain ensures HeldBySome(s', a) {
      assert a != ev && a !in s.chain;
      var u :| Holds(s, u, a);
      assert Holds(s', u, a);
    }
  }

  lemma QSeenSame(t: int, s: State, s': State)
    requires ThreadStep(t, s, s') && s.pcs[t].QSeen?
    ensures s'.heap.Keys == s.heap.Keys && forall a :: a in s.heap ==> s'.heap[a].event == s.heap[a].event
    ensures s'.created == s.created && s'.handled == s.handled && s'.delivered == s.delivered
    ensures s.pcs[t].ev in s.heap && s'.chain == s.chain + [s.pcs[t].ev] && s'.pcs == s.pcs[t := QLinked(s.pcs[t].ev)]
  {
  }

  lemma QSeenGenuine(t: int, s: State, s': State)
    requires AllGenuine(s) && ThreadStep(t, s, s') && s.pcs[t].QSeen?
    ensures AllGenuine(s')
  {
    QSeenSame(t, s, s');
  }

  lemma QSeenDelivered(t: int, s: State, s': State)
    requires DeliveredRight(s) && ThreadStep(t, s, s') && s.pcs[t].QSeen?
    ensures DeliveredRight(s')
  {
    QSeenSame(t, s, s');
    assert Making(s.pcs[t]);
  }

  lemma SameEvents(s: State, s': State)
    requires HandledRight(s) && s'.heap.Keys == s.heap.Keys
    requires forall a :: a in s.heap ==> s'.heap[a].event == s.heap[a].event
    requires s'.created == s.created && s'.handled == s.handled && s'.delivered == s.delivered
    ensures HandledRight(s')
  {
    forall e ensures InHeap(s', e) <==> InHeap(s, e) {
      if InHeap(s, e) {
        var a :| a in s.heap && s.heap[a].event == e;
        assert a in s'.heap && s'.heap[a].event == e;
      }
    }
  }

  lemma QSeenHandled(t: int, s: State, s': State)
    requires HandledRight(s) && ThreadStep(t, s, s') && s.pcs[t].QSeen?
    ensures HandledRight(s')
  {
    QSeenSame(t, s, s');
    SameEvents(s, s');
  }

  lemma QSeenAccounted(t: int, s: State, s': State)
    requires Accounted(s) && ThreadStep(t, s, s') && s.pcs[t].QSeen?
    ensures Accounted(s')
  {
    QSeenOwned(t, s, s');
    QSeenGenuine(t, s, s');
    QSeenDelivered(t, s, s');
    QSeenHandled(t, s, s');
  }

  // --------------------------------------------------------------- an event is taken

  lemma GNextOwned(t: int, s: State, s': State)
    requires Inv(s) && Owned(s) && ThreadStep(t, s, s') && s.pcs[t].GNext?
    ensures Owned(s')
  {
    var first := s.pcs[t].first;
    assert s.chain[0] == first && s'.chain == s.chain[1..] && Holds(s', t, first);
    forall a | a in s'.heap && a !in s'.chain && a != first ensures HeldBySome(s', a) {
      assert a !in s.chain;
      var u :| Holds(s, u, a);
      assert Holds(s', u, a);
    }
  }

  /** The first event of the queue has been delivered and is in the hands of some thread. */
  ghost predicate TakenOff(s: State, s': State, first: nat) {
    && first in s.heap && first in s.chain && s'.heap == s.heap && s'.created == s.created
    && s'.delivered == s.delivered + [s.heap[first].event]
    && (forall a :: a in s'.chain ==> a in s.chain && a != first)
    && (forall u :: u in s'.pcs && Making(s'.pcs[u]) ==> u in s.pcs && s'.pcs[u] == s.pcs[u] && s.pcs[u].ev != first)
    && (forall u :: u in s'.pcs && Taken(s'.pcs[u]) ==>
          Private(s'.pcs[u]) == At(first) || (u in s.pcs && s'.pcs[u] == s.pcs[u]))
  }

  lemma GNextTakesOff(t: int, s: State, s': State)
    requires Inv(s) && ThreadStep(t, s, s') && s.pcs[t].GNext?
    ensures TakenOff(s, s', s.pcs[t].first)
  {
    var first := s.pcs[t].first;
    assert s.chain[0] == first && s'.chain == s.chain[1..];
    forall u | u in s'.pcs && Making(s'.pcs[u]) ensures u in s.pcs && s'.pcs[u] == s.pcs[u] && s.pcs[u].ev != first {
      assert u != t && Private(s.pcs[u]) == At(s.pcs[u].ev);
    }
  }

  lemma TakenOffRight(s: State, s': State, first: nat)
    requires AllGenuine(s) && DeliveredRight(s) && TakenOff(s, s', first)
    ensures AllGenuine(s') && DeliveredRight(s')
  {
    assert s.heap[first].event !in s.delivered;
  }

  lemma GNextAccounted(t: int, s: State, s': State)
    requires Inv(s) && Accounted(s) && ThreadStep(t, s, s') && s.pcs[t].GNext?
    ensures Accounted(s')
  {
    GNextOwned(t, s, s');
    GNextTakesOff(t, s, s');
    TakenOffRight(s, s', s.pcs[t].first);
    GNextHandled(t, s, s');
  }

  lemma GNextHandled(t: int, s: State, s': State)
    requires HandledRight(s) && ThreadStep(t, s, s') && s.pcs[t].GNext?
    ensures HandledRight(s')
  {
    var e := s.heap[s.pcs[t].first].event;
    assert s'.heap == s.heap && InHeap(s, e);
    forall x ensures InHeap(s', x) <==> InHeap(s, x) {
    }
  }

  // ------------------------------------------------------ an event is handled and freed

  lemma HandlingOwned(t: int, s: State, s': State)
    requires Inv(s) && Owned(s) && ThreadStep(t, s, s') && s.pcs[t].Handling?
    ensures Owned(s')
  {
    var ev := s.pcs[t].ev;
    forall a | a in s'.heap && a !in s'.chain ensures HeldBySome(s', a) {
      var u :| Holds(s, u, a);
      assert u != t && Holds(s', u, a);
    }
  }

  lemma HandlingInHeap(t: int, s: State, s': State, e: Event)
    requires AllGenuine(s) && ThreadStep(t, s, s') && s.pcs[t].Handling?
    ensures InHeap(s', e) <==> InHeap(s, e) && e != s.heap[s.pcs[t].ev].event
  {
    var ev := s.pcs[t].ev;
    if InHeap(s, e) && e != s.heap[ev].event {
      var a :| a in s.heap && s.heap[a].event == e;
      assert a in s'.heap && s'.heap[a].event == e;
    }
    if InHeap(s', e) {
      var a :| a in s'.heap && s'.heap[a].event == e;
      assert a in s.heap && a != ev && s.heap[a].event == e;
    }
  }

  lemma HandlingDelivered(t: int, s: State, s': State)
    requires AllGenuine(s) && DeliveredRight(s) && ThreadStep(t, s, s') && s.pcs[t].Handling?
    ensures AllGenuine(s') && DeliveredRight(s')
  {
  }

  lemma HandlingHandled(t: int, s: State, s': State)
    requires AllGenuine(s) && DeliveredRight(s) && HandledRight(s) && ThreadStep(t, s, s') && s.pcs[t].Handling?
    ensures HandledRight(s')
  {
    var e := s.heap[s.pcs[t].ev].event;
    assert InHeap(s, e) && Taken(s.pcs[t]) && e in s.delivered && e !in s.handled;
    forall x ensures InHeap(s', x) <==> InHeap(s, x) && x != e {
      HandlingInHeap(t, s, s', x);
    }
  }

  lemma HandlingAccounted(t: int, s: State, s': State)
    requires Inv(s) && Accounted(s) && ThreadStep(t, s, s') && s.pcs[t].Handling?
    ensures Accounted(s')
  {
    HandlingOwned(t, s, s');
    HandlingDelivered(t, s, s');
    HandlingHandled(t, s, s');
  }

  // -------------------------------------------------------------------- every run

  lemma StepAccounted(t: int, s: State, s': State)
    requires Inv(s) && Accounted(s) && ThreadStep(t, s, s')
    ensures Accounted(s')
  {
    if s.pcs[t].Idle? && s'.lock == s.lock {
      var ev, msg, next :| Malloc(s, t, ev, msg, next, s');
      MallocAccounted(t, s, s', ev, msg, next);
    } else if s.pcs[t].QSeen? {
      QSeenAccounted(t, s, s');
    } else if s.pcs[t].GNext? {
      GNextAccounted(t, s, s');
    } else if s.pcs[t].Handling? {
      HandlingAccounted(t, s, s');
    } else {
      if s.pcs[t].Filled? { FilledIsQuiet(t, s, s'); } else { MostStepsAreQuiet(t, s, s'); }
      QuietStep(t, s, s');
    }
  }

  lemma {:induction false} BehaviourAccounted(states: seq<State>, k: nat)
    requires Behaviour(states) && k < |states|
    ensures Inv(states[k]) && Accounted(states[k])
  {
    BehaviourInv(states, k);
    if k == 0 {
      InitAccounted(states[0]);
    } else {
      BehaviourAccounted(states, k - 1);
      assert Next(states[k - 1], states[k - 1 + 1]);
      var t :| ThreadStep(t, states[k - 1], states[k]);
      StepAccounted(t, states[k - 1], states[k]);
    }
  }

  /** No leak: every allocated event is in the queue, or with one thread and no other. */
  lemma NoEventLeaks(states: seq<State>, k: nat, a: nat)
    requires Behaviour(states) && k < |states| && a in states[k].heap
    ensures a in states[k].chain <==> !HeldBySome(states[k], a)
    ensures forall t, u :: Holds(states[k], t, a) && Holds(states[k], u, a) ==> t == u
  {
    BehaviourAccounted(states, k);
  }

  /** The events that threads have taken and not yet freed. */
  ghost function TakenEvents(s: State): set<Event> {
    set t | t in s.pcs && Taken(s.pcs[t]) && Private(s.pcs[t]).addr in s.heap :: s.heap[Private(s.pcs[t]).addr].event
  }

  lemma {:induction false} CountOnce(events: seq<Event>, e: Event)
    requires NoneTwice(events)
    ensures multiset(events)[e] == if e in events then 1 else 0
  {
    if events != [] {
      assert events == [events[0]] + events[1..];
      CountOnce(events[1..], e);
      if events[0] == e { assert e !in events[1..]; }
    }
  }

  /** What was delivered is what has been handled and what threads are still holding: every
      event that is taken off the queue is handled once, by the thread that took it. */
  lemma DeliveredIsHandledOrTaken(states: seq<State>, k: nat)
    requires Behaviour(states) && k < |states|
    ensures var s := states[k]; multiset(s.delivered) == multiset(s.handled) + multiset(TakenEvents(s))
  {
    BehaviourAccounted(states, k);
    var s := states[k];
    forall e ensures multiset(s.delivered)[e] == multiset(s.handled)[e] + multiset(TakenEvents(s))[e] {
      CountOnce(s.delivered, e);
      CountOnce(s.handled, e);
      TakenIsInHeap(s, e);
    }
  }

  lemma TakenIsInHeap(s: State, e: Event)
    requires Inv(s) && Accounted(s)
    ensures e in TakenEvents(s) <==> e in s.delivered && InHeap(s, e)
  {
    if e in s.delivered && InHeap(s, e) {
      var a :| a in s.heap && s.heap[a].event == e;
      assert HeldBySome(s, a);
      var t :| Holds(s, t, a);
      assert Making(s.pcs[t]) || Taken(s.pcs[t]);
    }
  }

  /** Every event ever allocated is handled or still in memory, every event in the queue or
      a history carries the message it was allocated with, and none is there twice. */
  lemma EveryEventIsAccountedFor(states: seq<State>, k: nat)
    requires Behaviour(states) && k < |states|
    ensures var s := states[k];
      && (forall i :: 0 <= i < |s.created| ==>
            Event(i, s.created[i]) in s.handled || InHeap(s, Event(i, s.created[i])))
      && (forall e :: e in s.queued || e in s.delivered || e in s.handled ==> Genuine(s, e))
      && NoneTwice(s.delivered) && NoneTwice(s.handled)
  {
    BehaviourAccounted(states, k);
    var s := states[k];
    forall e | e in s.queued ensures Genuine(s, e) {
      if e !in s.delivered {
        var i :| 0 <= i < |s.chain| && Events(s.heap, s.chain)[i] == e;
        assert s.heap[s.chain[i]].event == e;
      }
    }
  }

  // ------------------------------------------------------------------ one consumer

  predicate Consuming(pc: PC) {
    pc.GLocked? || pc.GRead? || pc.GNext? || pc.GAdvanced? || pc.GSaw? || pc.GDone? || pc.Handling?
  }

  /** Only thread c takes events. */
  ghost predicate OneConsumer(states: seq<State>, c: int) {
    forall k, t :: 0 <= k < |states| && t in states[k].pcs && t != c ==> !Consuming(states[k].pcs[t])
  }

  /** What the consumer has in hand. */
  ghost function InHand(s: State, c: int): seq<Event> {
    if c in s.pcs && Taken(s.pcs[c]) && Private(s.pcs[c]).addr in s.heap
    then [s.heap[Private(s.pcs[c]).addr].event] else []
  }

  /** A step that takes and frees nothing leaves in hand what is in hand. */
  lemma HandKept(s: State, s': State, c: int)
    requires s'.delivered == s.delivered && s'.handled == s.handled
    requires c in s.pcs && c in s'.pcs
    requires Taken(s'.pcs[c]) == Taken(s.pcs[c])
    requires Taken(s.pcs[c]) ==> Private(s'.pcs[c]) == Private(s.pcs[c])
    requires Private(s.pcs[c]).At? ==> Private(s.pcs[c]).addr in s.heap
    requires forall a :: a in s.heap ==> a in s'.heap && s'.heap[a].event == s.heap[a].event
    ensures InHand(s', c) == InHand(s, c)
  {
  }

  lemma MallocHand(t: int, s: State, s': State, c: int, ev: nat, msg: string, next: Ptr)
    requires Inv(s) && t in s.pcs && s.pcs[t].Idle? && Malloc(s, t, ev, msg, next, s') && c in s.pcs
    ensures InHand(s', c) == InHand(s, c)
  {
    HandKept(s, s', c);
  }

  lemma QSeenHand(t: int, s: State, s': State, c: int)
    requires Inv(s) && ThreadStep(t, s, s') && s.pcs[t].QSeen? && c in s.pcs
    ensures InHand(s', c) == InHand(s, c)
  {
    HandKept(s, s', c);
  }

  lemma QuietHand(t: int, s: State, s': State, c: int)
    requires Inv(s) && Quiet(t, s, s') && c in s.pcs
    ensures InHand(s', c) == InHand(s, c)
  {
    HandKept(s, s', c);
  }

  lemma OneConsumerStep(t: int, s: State, s': State, c: int)
    requires Inv(s) && ThreadStep(t, s, s') && s.delivered == s.handled + InHand(s, c)
    requires t != c ==> !Consuming(s.pcs[t])
    ensures s'.delivered == s'.handled + InHand(s', c)
  {
    if c !in s.pcs {
      OutsiderStep(t, s, s');
    } else if s.pcs[t].Idle? && s'.lock == s.lock {
      var ev, msg, next :| Malloc(s, t, ev, msg, next, s');
      MallocHand(t, s, s', c, ev, msg, next);
    } else if s.pcs[t].QSeen? {
      QSeenHand(t, s, s', c);
    } else if s.pcs[t].GNext? || s.pcs[t].Handling? {
      ConsumerStep(t, s, s');
    } else {
      if s.pcs[t].Filled? { FilledIsQuiet(t, s, s'); } else { MostStepsAreQuiet(t, s, s'); }
      QuietHand(t, s, s', c);
    }
  }

  /** Where there is no consumer, nothing is taken. */
  lemma OutsiderStep(t: int, s: State, s': State)
    requires ThreadStep(t, s, s') && !Consuming(s.pcs[t])
    ensures s'.delivered == s.delivered && s'.handled == s.handled && s'.pcs.Keys == s.pcs.Keys
  {
    if s.pcs[t].Idle? && s'.lock == s.lock {
      var ev, msg, next :| Malloc(s, t, ev, msg, next, s');
    }
  }

  /** The two steps that take an event in hand and put it away. */
  lemma ConsumerStep(t: int, s: State, s': State)
    requires ThreadStep(t, s, s') && (s.pcs[t].GNext? || s.pcs[t].Handling?)
    requires s.delivered == s.handled + InHand(s, t)
    ensures s'.delivered == s'.handled + InHand(s', t)
  {
  }

  /** With one consumer, events are handled in the order in which they were queued. */
  lemma {:induction false} HandledInOrder(states: seq<State>, k: nat, c: int)
    requires Behaviour(states) && k < |states| && OneConsumer(states, c)
    ensures states[k].delivered == states[k].handled + InHand(states[k], c)
    ensures states[k].handled <= states[k].delivered && states[k].handled <= states[k].queued
  {
    BehaviourInv(states, k);
    if k > 0 {
      HandledInOrder(states, k - 1, c);
      BehaviourInv(states, k - 1);
      assert Next(states[k - 1], states[k - 1 + 1]);
      var t :| ThreadStep(t, states[k - 1], states[k]);
      OneConsumerStep(t, states[k - 1], states[k], c);
    }
  }

  // ------------------------------------------------------------------- no deadlock

  /** The thread waits for the mutex. */
  predicate Waits(s: State, pc: PC) { (pc.Cleared? || pc.Idle?) && s.lock != Free }

  ghost predicate CanStep(s: State, t: int) { exists s' :: ThreadStep(t, s, s') }

  /** A thread that does not wait for the mutex can take its next step, and when threads
      wait, the one that holds the mutex does not: there is always one that can go on. */
  lemma SomeoneCanGoOn(states: seq<State>, k: nat, t: int)
    requires Behaviour(states) && k < |states| && t in states[k].pcs
    ensures !Waits(states[k], states[k].pcs[t]) ==> CanStep(states[k], t)
    ensures Waits(states[k], states[k].pcs[t]) ==> CanStep(states[k], states[k].lock.t)
  {
    BehaviourInv(states, k);
    var s := states[k];
    if Waits(s, s.pcs[t]) {
      NextStepExists(s, s.lock.t);
    } else {
      NextStepExists(s, t);
    }
  }

  lemma NextStepExists(s: State, t: int)
    requires Inv(s) && t in s.pcs && !Waits(s, s.pcs[t])
    ensures CanStep(s, t)
  {
    var pc := s.pcs[t];
    var next :=
      match pc
      case Idle => Goto(s, t, GLocked).(lock := Held(t))
      case Filled(ev) => Goto(s, t, Cleared(ev)).(heap := s.heap[ev := s.heap[ev].(next := Null)])
      case Cleared(ev) => Goto(s, t, QLocked(ev)).(lock := Held(t))
      case QLocked(ev) => Goto(s, t, QSeen(ev, s.tail))
      case QSeen(ev, last) => Enqueued(Goto(s, t, QLinked(ev)), last, ev)
      case QLinked(ev) => Goto(s, t, QDone(ev)).(tail := At(ev))
      case QDone(ev) => Goto(s, t, Idle).(lock := Free)
      case GLocked => Goto(s, t, GRead(s.head))
      case GRead(ans) =>
        if ans == Null then Goto(s, t, GAdvanced(ans)) else Goto(s, t, GNext(ans.addr, s.heap[ans.addr].next))
      case GNext(first, n) => Dequeued(Goto(s, t, GAdvanced(At(first))), first, n)
      case GAdvanced(ans) => Goto(s, t, GSaw(ans, s.head))
      case GSaw(ans, now) => Goto(s, t, GDone(ans)).(tail := if now == Null then Null else s.tail)
      case GDone(ans) => Goto(s, t, if ans == Null then Idle else Handling(ans.addr)).(lock := Free)
      case Handling(ev) =>
        Goto(s, t, Idle).(heap := s.heap - {ev}, handled := s.handled + [s.heap[ev].event]);
    assert ThreadStep(t, s, next);
  }
}
