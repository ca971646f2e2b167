/**
 The action monitor's event queue (actions/actlogp.h:159-193), twice: as the linked list
 its two operations edit in place, and as threads for which every read and every write of
 shared memory is a step of its own, interleaved in any way the mutex allows.
 */
module EventQueue {

  class LinkedEvent {
    const msg: string
    var next: LinkedEvent?

    constructor (msg: string)
      ensures this.msg == msg
    {
      this.msg := msg;
      next := null;
    }
  }

  /** EventQueueHead and EventQueueTail.  The ghost fields say what the pointers stand
      for: the events now in the list, and the two histories. */
  class Queue {
    var head: LinkedEvent?
    var tail: LinkedEvent?
    ghost var events: seq<LinkedEvent>
    ghost var queued: seq<LinkedEvent>
    ghost var delivered: seq<LinkedEvent>

    ghost predicate Valid()
      reads this, events
    {
      && (head == null <==> events == []) && (tail == null <==> events == [])
      && (events != [] ==> head == events[0] && tail == events[|events| - 1] && tail.next == null)
      && (forall i :: 0 <= i < |events| - 1 ==> events[i].next == events[i + 1])
      && (forall i, j :: 0 <= i < j < |events| ==> events[i] != events[j])
      && queued == delivered + events
    }

    constructor ()
      ensures Valid() && queued == delivered == []
    {
      head, tail := null, null;
      events, queued, delivered := [], [], [];
    }

    /** Appends a fresh event. */
    method QEvent(ev: LinkedEvent)
      requires Valid() && ev !in events
      modifies this, ev, events
      ensures Valid()
      ensures events == old(events) + [ev]
      ensures queued == old(queued) + [ev] && delivered == old(delivered)
    {
      ev.next := null;
      if tail != null {
        tail.next := ev;
      } else {
        head := ev;
      }
      tail := ev;
      events, queued := events + [ev], queued + [ev];
    }

    /** Takes the first event, or nothing from an empty queue. */
    method GetQEvent() returns (ans: LinkedEvent?)
      requires Valid()
      modifies this
      ensures Valid() && queued == old(queued)
      ensures ans == null <==> old(events) == []
      ensures ans == null ==> events == [] && delivered == old(delivered)
      ensures ans != null ==> old(events) == [ans] + events && delivered == old(delivered) + [ans]
    {
      ans := head;
      if ans != null {
        head := ans.next;
        assert events[0] == ans && (|events| > 1 ==> ans.next == events[1]);
        delivered := delivered + [ans];
        events := events[1..];
        assert old(events) == [ans] + events;
      }
      if head == null {
        tail := null;
      }
    }

    /** The consumer's timer: handles events, in order, until the queue is empty. */
    method DoTimer() returns (handled: seq<LinkedEvent>)
      requires Valid()
      modifies this
      ensures Valid() && events == [] && queued == old(queued)
      ensures handled == old(events) && delivered == old(delivered) + handled
    {
      handled := [];
      var ev := GetQEvent();
      while ev != null
        invariant Valid() && queued == old(queued)
        invariant delivered == old(delivered) + handled + (if ev == null then [] else [ev])
        invariant old(events) == handled + (if ev == null then [] else [ev]) + events
        invariant ev == null ==> events == []
        decreases |events|, ev != null
      {
        handled := handled + [ev];
        ev := GetQEvent();
      }
    }
  }
}

/**
 The same operations as concurrent threads.  A state holds the shared memory and, for
 each thread, how far it has come; a step is one read or one write of a shared variable,
 or one operation on the mutex.  What a thread has read it keeps in its own program state.
 Any number of threads may produce and consume; addresses are reused after free.
 */
module EventThreads {

  datatype Ptr = Null | At(addr: nat)

  /** The mutex: free, or held by a thread. */
  datatype Holder = Free | Held(t: int)

  /** A message, and which allocation it came with: two events with the same text differ. */
  datatype Event = Event(id: nat, msg: string)

  datatype Cell = Cell(event: Event, next: Ptr)

  /** Where a thread is.  Q: in QEvent, G: in GetQEvent. */
  datatype PC =
    | Idle
    | Filled(ev: nat)           // event allocated and parsed
    | Cleared(ev: nat)          // ev->next = NULL
    | QLocked(ev: nat)
    | QSeen(ev: nat, last: Ptr) // tail has been read
    | QLinked(ev: nat)          // old tail or head points to ev
    | QDone(ev: nat)            // tail = ev
    | GLocked
    | GRead(ans: Ptr)           // ans = head
    | GNext(first: nat, next: Ptr) // ans->next has been read
    | GAdvanced(ans: Ptr)       // head = ans->next
    | GSaw(ans: Ptr, now: Ptr)  // head has been read again
    | GDone(ans: Ptr)           // tail cleared if the queue became empty
    | Handling(ev: nat)         // EventUpdate, then free

  /** chain lists the addresses in the queue; it and the histories are only observed: the
      messages events were allocated with, the events put into the queue, taken from it, and
      handled and freed. */
  datatype State = State(
    pcs: map<int, PC>,
    lock: Holder,
    head: Ptr,
    tail: Ptr,
    heap: map<nat, Cell>,
    chain: seq<nat>,
    created: seq<string>,
    queued: seq<Event>,
    delivered: seq<Event>,
    handled: seq<Event>)

  ghost predicate Init(s: State) {
    && (forall t :: t in s.pcs ==> s.pcs[t] == Idle)
    && s.lock == Free && s.head == Null && s.tail == Null
    && s.heap == map[] && s.chain == []
    && s.created == [] && s.queued == [] && s.delivered == [] && s.handled == []
  }

  /** One step of thread t.  A dereference of an address that is not allocated is not a
      step; NoDanglingPointer shows that none is ever attempted. */
  ghost predicate ThreadStep(t: int, s: State, s': State) {
    t in s.pcs &&
    match s.pcs[t]
    case Idle =>
      || (exists ev, msg, next :: Malloc(s, t, ev, msg, next, s'))
      || (s.lock == Free && s' == Goto(s, t, GLocked).(lock := Held(t)))
    case Filled(ev) =>
      ev in s.heap && s' == Goto(s, t, Cleared(ev)).(heap := s.heap[ev := s.heap[ev].(next := Null)])
    case Cleared(ev) =>
      s.lock == Free && s' == Goto(s, t, QLocked(ev)).(lock := Held(t))
    case QLocked(ev) =>
      s' == Goto(s, t, QSeen(ev, s.tail))
    case QSeen(ev, last) =>
      ev in s.heap && s' == Enqueued(Goto(s, t, QLinked(ev)), last, ev) &&
      (last.At? ==> last.addr in s.heap)
    case QLinked(ev) =>
      s' == Goto(s, t, QDone(ev)).(tail := At(ev))
    case QDone(ev) =>
      s' == Goto(s, t, Idle).(lock := Free)
    case GLocked =>
      s' == Goto(s, t, GRead(s.head))
    case GRead(ans) =>
      if ans == Null then s' == Goto(s, t, GAdvanced(ans))
      else ans.addr in s.heap && s' == Goto(s, t, GNext(ans.addr, s.heap[ans.addr].next))
    case GNext(first, next) =>
      first in s.heap && s' == Dequeued(Goto(s, t, GAdvanced(At(first))), first, next)
    case GAdvanced(ans) =>
      s' == Goto(s, t, GSaw(ans, s.head))
    case GSaw(ans, now) =>
      s' == Goto(s, t, GDone(ans)).(tail := if now == Null then Null else s.tail)
    case GDone(ans) =>
      s' == Goto(s, t, if ans == Null then Idle else Handling(ans.addr)).(lock := Free)
    case Handling(ev) =>
      ev in s.heap && s' == Goto(s, t, Idle).(heap := s.heap - {ev}, handled := s.handled + [s.heap[ev].event])
  }

  /** A new event with a message and whatever is in its next pointer. */
  ghost predicate Malloc(s: State, t: int, ev: nat, msg: string, next: Ptr, s': State) {
    && ev !in s.heap
    && s' == Goto(s, t, Filled(ev)).(heap := s.heap[ev := Cell(Event(|s.created|, msg), next)],
                                     created := s.created + [msg])
  }

  function Goto(s: State, t: int, pc: PC): State { s.(pcs := s.pcs[t := pc]) }

  /** if (tail) tail->next = ev; else head = ev; with the tail that was read. */
  function Enqueued(s: State, last: Ptr, ev: nat): State
    requires ev in s.heap
  {
    var linked := if last.At? && last.addr in s.heap
      then s.(heap := s.heap[last.addr := s.heap[last.addr].(next := At(ev))])
      else s.(head := At(ev));
    linked.(chain := s.chain + [ev], queued := s.queued + [s.heap[ev].event])
  }

  /** head = ans->next; with the next that was read. */
  function Dequeued(s: State, first: nat, next: Ptr): State
    requires first in s.heap
  {
    s.(head := next,
       chain := if s.chain == [] then [] else s.chain[1..],
       delivered := s.delivered + [s.heap[first].event])
  }

  ghost predicate Next(s: State, s': State) { exists t :: ThreadStep(t, s, s') }

  // --------------------------------------------------------------- invariant

  predicate InCriticalSection(pc: PC) {
    || pc.QLocked? || pc.QSeen? || pc.QLinked? || pc.QDone?
    || pc.GLocked? || pc.GRead? || pc.GNext? || pc.GAdvanced? || pc.GSaw? || pc.GDone?
  }

  /** The event only this thread knows, if it has one. */
  function Private(pc: PC): Ptr {
    match pc
    case Filled(ev) => At(ev)
    case Cleared(ev) => At(ev)
    case QLocked(ev) => At(ev)
    case QSeen(ev, last) => At(ev)
    case GAdvanced(ans) => ans
    case GSaw(ans, now) => ans
    case GDone(ans) => ans
    case Handling(ev) => At(ev)
    case _ => Null
  }

  function First(chain: seq<nat>): Ptr { if chain == [] then Null else At(chain[0]) }

  function Last(chain: seq<nat>): Ptr { if chain == [] then Null else At(chain[|chain| - 1]) }

  ghost predicate Linked(heap: map<nat, Cell>, chain: seq<nat>) {
    && (forall i :: 0 <= i < |chain| ==> chain[i] in heap)
    && (forall i :: 0 <= i < |chain| - 1 ==> heap[chain[i]].next == At(chain[i + 1]))
    && (chain != [] ==> heap[chain[|chain| - 1]].next == Null)
    && (forall i, j :: 0 <= i < j < |chain| ==> chain[i] != chain[j])
  }

  function Events(heap: map<nat, Cell>, chain: seq<nat>): (r: seq<Event>)
    requires forall i :: 0 <= i < |chain| ==> chain[i] in heap
    ensures |r| == |chain|
    ensures forall i :: 0 <= i < |chain| ==> r[i] == heap[chain[i]].event
  {
    seq(|chain|, i requires 0 <= i < |chain| => heap[chain[i]].event)
  }

  /** The event is to be linked in next, and its next pointer has been cleared. */
  predicate Ready(pc: PC) { pc.Cleared? || pc.QLocked? || pc.QSeen? }

  /** The mutex is held by exactly the thread inside a critical section. */
  ghost predicate Exclusive(s: State) {
    && (forall t :: t in s.pcs && InCriticalSection(s.pcs[t]) ==> s.lock == Held(t))
    && (s.lock.Held? ==> s.lock.t in s.pcs && InCriticalSection(s.pcs[s.lock.t]))
  }

  /** Private events are allocated, not in the queue, and known to one thread only. */
  ghost predicate Separated(s: State) {
    && (forall t :: t in s.pcs && Private(s.pcs[t]).At? ==>
          Private(s.pcs[t]).addr in s.heap && Private(s.pcs[t]).addr !in s.chain)
    && (forall t, u :: t in s.pcs && u in s.pcs && t != u && Private(s.pcs[t]).At? ==>
          Private(s.pcs[t]) != Private(s.pcs[u]))
    && (forall t :: t in s.pcs && Ready(s.pcs[t]) && s.pcs[t].ev in s.heap ==> s.heap[s.pcs[t].ev].next == Null)
  }

  /** What the tail is, depending on how far the thread in the critical section has come:
      between its two writes the tail lags one event behind. */
  function TailNow(s: State, pc: PC): Ptr {
    match pc
    case QLinked(ev) => if s.chain == [] then Null else Last(s.chain[..|s.chain| - 1])
    case GAdvanced(ans) => if s.chain == [] then ans else Last(s.chain)
    case GSaw(ans, now) => if s.chain == [] then ans else Last(s.chain)
    case _ => Last(s.chain)
  }

  ghost predicate TailRight(s: State) {
    && (s.lock == Free ==> s.tail == Last(s.chain))
    && (forall t :: t in s.pcs && InCriticalSection(s.pcs[t]) ==> s.tail == TailNow(s, s.pcs[t]))
    && (forall t :: t in s.pcs && s.pcs[t].QLinked? ==> Last(s.chain) == At(s.pcs[t].ev))
    && (forall t :: t in s.pcs ==> ReadRight(s, s.pcs[t]))
  }

  /** What the thread in the critical section has read is still what memory holds. */
  ghost predicate ReadRight(s: State, pc: PC) {
    match pc
    case QSeen(ev, last) => last == s.tail
    case GRead(ans) => ans == s.head
    case GNext(first, next) => s.head == At(first) && first in s.heap && s.heap[first].next == next
    case GSaw(ans, now) => now == s.head
    case _ => true
  }

  ghost predicate Inv(s: State) {
    && Exclusive(s) && Separated(s) && TailRight(s)
    && Linked(s.heap, s.chain) && s.head == First(s.chain)
    && s.queued == s.delivered + Events(s.heap, s.chain)
  }

  /** Changes outside the queue do not matter to it. */
  lemma LinkedFrame(h: map<nat, Cell>, h': map<nat, Cell>, chain: seq<nat>)
    requires Linked(h, chain) && forall i :: 0 <= i < |chain| ==> chain[i] in h' && h'[chain[i]] == h[chain[i]]
    ensures Linked(h', chain) && Events(h', chain) == Events(h, chain)
  {
  }

  lemma LinkAppend(h: map<nat, Cell>, h': map<nat, Cell>, chain: seq<nat>, ev: nat)
    requires Linked(h, chain) && ev in h && ev !in chain && h[ev].next == Null && chain != []
    requires h' == h[chain[|chain| - 1] := h[chain[|chain| - 1]].(next := At(ev))]
    ensures Linked(h', chain + [ev]) && Events(h', chain + [ev]) == Events(h, chain) + [h[ev].event]
  {
    var last := chain[|chain| - 1];
    var q := chain + [ev];
    assert forall i :: 0 <= i < |chain| - 1 ==> chain[i] != last;
    assert Linked(h', q);
    assert Events(h', q) == Events(h, chain) + [h[ev].event];
  }

  lemma LinkPop(h: map<nat, Cell>, chain: seq<nat>)
    requires Linked(h, chain) && chain != []
    ensures Linked(h, chain[1..]) && First(chain[1..]) == h[chain[0]].next
    ensures chain[0] !in chain[1..]
  {
    var rest := chain[1..];
    forall i | 0 <= i < |rest| - 1 ensures h[rest[i]].next == At(rest[i + 1]) {
      assert rest[i] == chain[i + 1] && rest[i + 1] == chain[i + 1 + 1];
    }
    if rest != [] { assert rest[|rest| - 1] == chain[|chain| - 1]; }
    if |chain| > 1 { assert h[chain[0]].next == At(chain[0 + 1]); }
  }

  lemma EventsPop(h: map<nat, Cell>, chain: seq<nat>)
    requires forall i :: 0 <= i < |chain| ==> chain[i] in h
    requires chain != []
    ensures Events(h, chain) == [h[chain[0]].event] + Events(h, chain[1..])
  {
  }

  lemma PopHistory(h: map<nat, Cell>, chain: seq<nat>, delivered: seq<Event>)
    requires Linked(h, chain) && chain != []
    ensures Linked(h, chain[1..])
    ensures delivered + Events(h, chain) == (delivered + [h[chain[0]].event]) + Events(h, chain[1..])
  {
    LinkPop(h, chain);
    EventsPop(h, chain);
  }

  lemma InitInv(s: State)
    requires Init(s)
    ensures Inv(s)
  {
    assert forall t :: t in s.pcs ==> Private(s.pcs[t]) == Null && !InCriticalSection(s.pcs[t]);
    assert Events(s.heap, s.chain) == [];
  }

  /** A step outside the critical section that leaves the events in the queue alone. */
  lemma OutsideStep(t: int, s: State, s': State)
    requires Inv(s) && t in s.pcs && !InCriticalSection(s.pcs[t])
    requires t in s'.pcs && !InCriticalSection(s'.pcs[t])
    requires Separated(s')
    requires s' == s.(pcs := s.pcs[t := s'.pcs[t]], heap := s'.heap, created := s'.created, handled := s'.handled)
    requires forall i :: 0 <= i < |s.chain| ==> s.chain[i] in s'.heap && s'.heap[s.chain[i]] == s.heap[s.chain[i]]
    ensures Inv(s')
  {
    LinkedFrame(s.heap, s'.heap, s.chain);
    forall u | u in s'.pcs ensures ReadRight(s', s'.pcs[u]) {
      if u != t && s.pcs[u].GNext? { assert s.chain != [] && s.pcs[u].first == s.chain[0]; }
    }
  }

  lemma MallocSeparated(t: int, s: State, s': State, ev: nat, msg: string, next: Ptr)
    requires Inv(s) && t in s.pcs && s.pcs[t].Idle? && Malloc(s, t, ev, msg, next, s')
    ensures Separated(s')
  {
  }

  lemma MallocStep(t: int, s: State, s': State, ev: nat, msg: string, next: Ptr)
    requires Inv(s) && t in s.pcs && s.pcs[t].Idle? && Malloc(s, t, ev, msg, next, s')
    ensures Inv(s')
  {
    MallocSeparated(t, s, s', ev, msg, next);
    OutsideStep(t, s, s');
  }

  lemma IdleStep(t: int, s: State, s': State)
    requires Inv(s) && ThreadStep(t, s, s') && s.pcs[t].Idle?
    ensures Inv(s')
  {
    if s'.lock == s.lock {
      var ev, msg, next :| Malloc(s, t, ev, msg, next, s');
      MallocStep(t, s, s', ev, msg, next);
    }
  }

  lemma FilledSeparated(t: int, s: State, s': State)
    requires Inv(s) && ThreadStep(t, s, s') && s.pcs[t].Filled?
    ensures Separated(s')
  {
  }

  lemma FilledStep(t: int, s: State, s': State)
    requires Inv(s) && ThreadStep(t, s, s') && s.pcs[t].Filled?
    ensures Inv(s')
  {
    assert Private(s.pcs[t]) == At(s.pcs[t].ev);
    FilledSeparated(t, s, s');
    OutsideStep(t, s, s');
  }

  lemma ClearedStep(t: int, s: State, s': State)
    requires Inv(s) && ThreadStep(t, s, s') && s.pcs[t].Cleared?
    ensures Inv(s')
  {
  }

  lemma QSeenLinks(t: int, s: State, s': State)
    requires Inv(s) && ThreadStep(t, s, s') && s.pcs[t].QSeen?
    ensures Linked(s'.heap, s'.chain) && s'.head == First(s'.chain)
    ensures s'.queued == s'.delivered + Events(s'.heap, s'.chain)
  {
    var ev := s.pcs[t].ev;
    if s.chain == [] {
      assert Events(s'.heap, s'.chain) == [s.heap[ev].event];
    } else {
      LinkAppend(s.heap, s'.heap, s.chain, ev);
    }
  }

  lemma QSeenSeparated(t: int, s: State, s': State)
    requires Inv(s) && ThreadStep(t, s, s') && s.pcs[t].QSeen?
    ensures Separated(s')
  {
    var ev := s.pcs[t].ev;
    assert Private(s.pcs[t]) == At(ev);
    assert s.tail.At? ==> s.tail.addr in s.chain;
    forall u | u in s'.pcs && Private(s'.pcs[u]).At?
      ensures Private(s'.pcs[u]).addr in s'.heap && Private(s'.pcs[u]).addr !in s'.chain
    {
      assert u != t && Private(s.pcs[u]) != Private(s.pcs[t]);
    }
  }

  lemma QLockedStep(t: int, s: State, s': State)
    requires Inv(s) && ThreadStep(t, s, s') && s.pcs[t].QLocked?
    ensures Inv(s')
  {
  }

  lemma QSeenStep(t: int, s: State, s': State)
    requires Inv(s) && ThreadStep(t, s, s') && s.pcs[t].QSeen?
    ensures Inv(s')
  {
    QSeenLinks(t, s, s');
    QSeenSeparated(t, s, s');
    assert s'.chain[..|s'.chain| - 1] == s.chain;
    assert s.tail == Last(s.chain);
  }

  lemma QLinkedStep(t: int, s: State, s': State)
    requires Inv(s) && ThreadStep(t, s, s') && s.pcs[t].QLinked?
    ensures Inv(s')
  {
  }

  lemma QDoneStep(t: int, s: State, s': State)
    requires Inv(s) && ThreadStep(t, s, s') && s.pcs[t].QDone?
    ensures Inv(s')
  {
  }

  lemma GLockedStep(t: int, s: State, s': State)
    requires Inv(s) && ThreadStep(t, s, s') && s.pcs[t].GLocked?
    ensures Inv(s')
  {
  }

  lemma GReadStep(t: int, s: State, s': State)
    requires Inv(s) && ThreadStep(t, s, s') && s.pcs[t].GRead?
    ensures Inv(s')
  {
  }

  lemma GNextSeparated(t: int, s: State, s': State)
    requires Inv(s) && ThreadStep(t, s, s') && s.pcs[t].GNext?
    ensures Separated(s')
  {
    var first := s.chain[0];
    assert s.pcs[t].first == first;
    LinkPop(s.heap, s.chain);
    forall u | u in s'.pcs && Private(s'.pcs[u]).At?
      ensures Private(s'.pcs[u]).addr in s'.heap && Private(s'.pcs[u]).addr !in s'.chain
      ensures u != t ==> Private(s'.pcs[u]) != At(first)
    {
      if u != t { assert Private(s.pcs[u]).addr !in s.chain; }
    }
  }

  lemma GNextLinks(t: int, s: State, s': State)
    requires Inv(s) && ThreadStep(t, s, s') && s.pcs[t].GNext?
    ensures Linked(s'.heap, s'.chain) && s'.head == First(s'.chain)
    ensures s'.queued == s'.delivered + Events(s'.heap, s'.chain)
  {
    LinkPop(s.heap, s.chain);
    PopHistory(s.heap, s.chain, s.delivered);
  }

  lemma GNextTail(t: int, s: State, s': State)
    requires Inv(s) && ThreadStep(t, s, s') && s.pcs[t].GNext?
    ensures TailRight(s')
  {
    assert s.tail == Last(s.chain) && s'.chain == s.chain[1..] && s.lock == Held(t);
  }

  lemma GNextStep(t: int, s: State, s': State)
    requires Inv(s) && ThreadStep(t, s, s') && s.pcs[t].GNext?
    ensures Inv(s')
  {
    GNextLinks(t, s, s');
    GNextTail(t, s, s');
    GNextSeparated(t, s, s');
  }

  lemma GAdvancedStep(t: int, s: State, s': State)
    requires Inv(s) && ThreadStep(t, s, s') && s.pcs[t].GAdvanced?
    ensures Inv(s')
  {
  }

  lemma GSawStep(t: int, s: State, s': State)
    requires Inv(s) && ThreadStep(t, s, s') && s.pcs[t].GSaw?
    ensures Inv(s')
  {
  }

  lemma GDoneStep(t: int, s: State, s': State)
    requires Inv(s) && ThreadStep(t, s, s') && s.pcs[t].GDone?
    ensures Inv(s')
  {
  }

  lemma HandlingSeparated(t: int, s: State, s': State)
    requires Inv(s) && ThreadStep(t, s, s') && s.pcs[t].Handling?
    ensures Separated(s')
  {
  }

  lemma HandlingStep(t: int, s: State, s': State)
    requires Inv(s) && ThreadStep(t, s, s') && s.pcs[t].Handling?
    ensures Inv(s')
  {
    assert Private(s.pcs[t]) == At(s.pcs[t].ev);
    HandlingSeparated(t, s, s');
    OutsideStep(t, s, s');
  }

  lemma StepInv(t: int, s: State, s': State)
    requires Inv(s) && ThreadStep(t, s, s')
    ensures Inv(s')
  {
    match s.pcs[t]
    case Idle => IdleStep(t, s, s');
    case Filled(_) => FilledStep(t, s, s');
    case Cleared(_) => ClearedStep(t, s, s');
    case QLocked(_) => QLockedStep(t, s, s');
    case QSeen(_, _) => QSeenStep(t, s, s');
    case QLinked(_) => QLinkedStep(t, s, s');
    case QDone(_) => QDoneStep(t, s, s');
    case GLocked => GLockedStep(t, s, s');
    case GRead(_) => GReadStep(t, s, s');
    case GNext(_, _) => GNextStep(t, s, s');
    case GAdvanced(_) => GAdvancedStep(t, s, s');
    case GSaw(_, _) => GSawStep(t, s, s');
    case GDone(_) => GDoneStep(t, s, s');
    case Handling(_) => HandlingStep(t, s, s');
  }

  /** One step of any thread keeps the invariant. */
  lemma NextInv(s: State, s': State)
    requires Inv(s) && Next(s, s')
    ensures Inv(s')
  {
    var t :| ThreadStep(t, s, s');
    StepInv(t, s, s');
  }

  // -------------------------------------------------------------------- runs

  ghost predicate Behaviour(states: seq<State>) {
    && states != [] && Init(states[0])
    && forall i :: 0 <= i < |states| - 1 ==> Next(states[i], states[i + 1])
  }

  lemma {:induction false} BehaviourInv(states: seq<State>, k: nat)
    requires Behaviour(states) && k < |states|
    ensures Inv(states[k])
  {
    if k == 0 {
      InitInv(states[0]);
    } else {
      BehaviourInv(states, k - 1);
      assert Next(states[k - 1], states[k - 1 + 1]);
      NextInv(states[k - 1], states[k]);
    }
  }

  /** Whatever the interleaving: what has been delivered is a prefix of what has been
      queued, in order, nothing lost or repeated; what is missing is what is in the list.
      While the mutex is free, head is null exactly when tail is, and tail is the last
      node reached from head. */
  lemma EventsArriveInOrder(states: seq<State>, k: nat)
    requires Behaviour(states) && k < |states|
    ensures var s := states[k];
      && s.delivered <= s.queued
      && Linked(s.heap, s.chain) && s.head == First(s.chain)
      && s.queued[|s.delivered|..] == Events(s.heap, s.chain)
      && (s.lock == Free ==> s.tail == Last(s.chain) && (s.head == Null <==> s.tail == Null))
  {
    BehaviourInv(states, k);
  }

  /** At most one thread is between lock and unlock. */
  lemma MutualExclusion(states: seq<State>, k: nat, t: int, u: int)
    requires Behaviour(states) && k < |states|
    requires t in states[k].pcs && InCriticalSection(states[k].pcs[t])
    requires u in states[k].pcs && InCriticalSection(states[k].pcs[u])
    ensures t == u
  {
    BehaviourInv(states, k);
  }

  /** Every pointer a thread is about to follow or free is allocated, and what it frees is
      not in the queue and not known to any other thread. */
  lemma NoDanglingPointer(states: seq<State>, k: nat, t: int)
    requires Behaviour(states) && k < |states| && t in states[k].pcs
    ensures var s := states[k];
      match s.pcs[t]
      case Filled(ev) => ev in s.heap
      case QSeen(ev, last) => ev in s.heap && (last.At? ==> last.addr in s.heap)
      case GRead(ans) => ans.At? ==> ans.addr in s.heap
      case Handling(ev) =>
        && ev in s.heap && ev !in s.chain && s.tail != At(ev) && s.head != At(ev)
        && forall u :: u in s.pcs && u != t ==> Private(s.pcs[u]) != At(ev)
      case _ => true
  {
    BehaviourInv(states, k);
    var s := states[k];
    if s.pcs[t].QSeen? { assert s.tail == Last(s.chain); }
    if s.pcs[t].Handling? {
      assert Private(s.pcs[t]) == At(s.pcs[t].ev);
      if s.lock.Held? {
        var u := s.lock.t;
        assert s.tail == TailNow(s, s.pcs[u]) && Private(s.pcs[u]) != Private(s.pcs[t]);
      }
    }
  }
}
