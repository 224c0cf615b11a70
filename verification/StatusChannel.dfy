/** The status channel: a bounded queue, a waker behind a mutex and a socket that
    carries signal octets, shared by any number of senders and one receiver. Each
    step below is one atomic access of the source. */
module StatusChannels {
  import opened Basics

  /** Where a sender is inside try_send. */
  datatype SenderAt<T> = Outside | Locked(t: T) | Signalling | Waking | Clearing | Unlocking

  /** Where the receiver is; `poll` tells poll_next from a plain try_recv. */
  datatype ReceiverAt = Idle | Draining(poll: bool) | Receiving(poll: bool) | Storing | Returning(pending: bool)

  datatype Lock = Free | HeldBySender(id: int) | HeldByReceiver

  /** One try_send in the order of its queue access. */
  datatype Offer<T> = Offer(t: T, accepted: bool, queued: nat)

  datatype Channel<T> = Channel(
    capacity: nat,
    socketCapacity: nat,
    queue: seq<T>,
    octets: nat,            // unread signal octets
    waker: bool,            // a waker is stored
    lock: Lock,             // the waker's mutex
    senders: map<int, SenderAt<T>>,
    receiver: ReceiverAt,
    waiting: bool,          // the last plain receive found nothing
    asleep: bool,           // the async reader got Pending and was not woken since
    offers: seq<Offer<T>>,
    received: seq<T>)

  datatype Step<T> =
    | LockForSend(id: int, t: T)
    | Enqueue(id: int)
    | Signal(id: int)
    | Wake(id: int)
    | Clear(id: int)
    | UnlockSend(id: int)
    | BeginRecv
    | LockForPoll
    | DrainSome(n: nat)
    | DrainDone
    | Dequeue
    | StoreWaker
    | ReturnFromPoll

  ghost predicate At<T>(c: Channel<T>, id: int, at: SenderAt<T>) { id in c.senders && c.senders[id] == at }

  ghost predicate IsLocked<T>(c: Channel<T>, id: int) { id in c.senders && c.senders[id].Locked? }

  ghost predicate Enabled<T>(c: Channel<T>, s: Step<T>) {
    match s
    case LockForSend(id, t) => At(c, id, Outside) && c.lock == Free
    case Enqueue(id) => IsLocked(c, id)
    case Signal(id) => At(c, id, Signalling)
    case Wake(id) => At(c, id, Waking)
    case Clear(id) => At(c, id, Clearing)
    case UnlockSend(id) => At(c, id, Unlocking)
    case BeginRecv => c.receiver == Idle
    case LockForPoll => c.receiver == Idle && c.lock == Free
    case DrainSome(n) => c.receiver.Draining? && 0 < n <= c.octets
    case DrainDone => c.receiver.Draining? && c.octets == 0
    case Dequeue => c.receiver.Receiving?
    case StoreWaker => c.receiver == Storing
    case ReturnFromPoll => c.receiver.Returning?
  }

  ghost function Moved<T>(c: Channel<T>, id: int, at: SenderAt<T>): Channel<T> {
    c.(senders := c.senders[id := at])
  }

  ghost function Apply<T>(c: Channel<T>, s: Step<T>): Channel<T>
    requires Enabled(c, s)
  {
    match s
    case LockForSend(id, t) => Moved(c, id, Locked(t)).(lock := HeldBySender(id))
    case Enqueue(id) =>
      var t := c.senders[id].t;
      var accepted := |c.queue| < c.capacity;
      Moved(c, id, Signalling).(
        queue := if accepted then c.queue + [t] else c.queue,
        offers := c.offers + [Offer(t, accepted, |c.queue|)])
    case Signal(id) =>
      Moved(c, id, Waking).(octets := if c.octets < c.socketCapacity then c.octets + 1 else c.octets)
    case Wake(id) => Moved(c, id, Clearing).(asleep := c.asleep && !c.waker)
    case Clear(id) => Moved(c, id, Unlocking).(waker := false)
    case UnlockSend(id) => Moved(c, id, Outside).(lock := Free)
    case BeginRecv => c.(receiver := Draining(false), waiting := false)
    case LockForPoll => c.(receiver := Draining(true), waiting := false, asleep := false, lock := HeldByReceiver)
    case DrainSome(n) => c.(octets := c.octets - n)
    case DrainDone => c.(receiver := Receiving(c.receiver.poll))
    case Dequeue =>
      var poll := c.receiver.poll;
      if c.queue == [] then
        if poll then c.(receiver := Storing) else c.(receiver := Idle, waiting := true)
      else
        c.(receiver := if poll then Returning(false) else Idle,
           queue := c.queue[1..], received := c.received + [c.queue[0]])
    case StoreWaker => c.(waker := true, receiver := Returning(true))
    case ReturnFromPoll => c.(receiver := Idle, asleep := c.receiver.pending, lock := Free)
  }

  // ----- invariant -------------------------------------------------------------

  predicate Busy<T>(at: SenderAt<T>) { !at.Outside? }

  ghost predicate Polls(r: ReceiverAt) {
    match r
    case Draining(p) => p
    case Receiving(p) => p
    case Storing => true
    case Returning(_) => true
    case Idle => false
  }

  /** The mutex is held by exactly the one thread that is inside its section. */
  ghost predicate LockInv<T>(c: Channel<T>) {
    && (forall id :: id in c.senders && Busy(c.senders[id]) ==> c.lock == HeldBySender(id))
    && (c.lock.HeldBySender? ==> c.lock.id in c.senders && Busy(c.senders[c.lock.id]))
    && (c.lock == HeldByReceiver <==> Polls(c.receiver))
  }

  /** The sender that holds the mutex, if any. */
  ghost function Current<T>(c: Channel<T>): SenderAt<T>
    requires LockInv(c)
  {
    if c.lock.HeldBySender? then c.senders[c.lock.id] else Outside
  }

  ghost function Accepted<T>(offers: seq<Offer<T>>): seq<T> {
    if offers == [] then []
    else
      var o := offers[|offers| - 1];
      Accepted(offers[..|offers| - 1]) + if o.accepted then [o.t] else []
  }

  /** First in, first out; an offer is refused exactly when the queue is full. */
  ghost predicate QueueInv<T>(c: Channel<T>) {
    && c.received + c.queue == Accepted(c.offers)
    && |c.queue| <= c.capacity
    && (forall i :: 0 <= i < |c.offers| ==> (c.offers[i].accepted <==> c.offers[i].queued < c.capacity))
  }

  /** A stored waker means an empty queue, except while a sender is on its way to
      use and clear that waker. */
  ghost predicate WakerInv<T>(c: Channel<T>)
    requires LockInv(c)
  {
    var at := Current(c);
    && (c.waker && c.queue != [] ==> at.Signalling? || at.Waking? || at.Clearing?)
    && (c.asleep ==> c.waker && !Polls(c.receiver) && !at.Clearing? && !at.Unlocking?)
    && (at.Unlocking? ==> !c.waker)
    && (c.receiver == Storing ==> c.queue == [])
    && (c.receiver == Returning(true) ==> c.waker && c.queue == [])
  }

  /** A receiver that found nothing and waits for the socket does not wait in vain. */
  ghost predicate SignalInv<T>(c: Channel<T>)
    requires LockInv(c)
  {
    c.waiting ==>
      && c.receiver == Idle
      && (c.queue != [] ==> c.octets > 0 || Current(c).Signalling?)
  }

  ghost predicate Inv<T>(c: Channel<T>) {
    c.socketCapacity > 0 && LockInv(c) && QueueInv(c) && WakerInv(c) && SignalInv(c)
  }

  lemma SendKeepsInv<T>(c: Channel<T>, s: Step<T>)
    requires Inv(c) && Enabled(c, s)
    requires s.LockForSend? || s.Enqueue? || s.Signal? || s.Wake? || s.Clear? || s.UnlockSend?
    ensures Inv(Apply(c, s))
  {
    var d := Apply(c, s);
    assert LockInv(d);
    if s.Enqueue? {
      assert d.offers[..|c.offers|] == c.offers;
      assert d.received + d.queue == Accepted(d.offers) by {
        assert c.received + (c.queue + [c.senders[s.id].t]) == (c.received + c.queue) + [c.senders[s.id].t];
        assert (c.received + c.queue) + [] == c.received + c.queue;
      }
    }
  }

  lemma ReceiveKeepsInv<T>(c: Channel<T>, s: Step<T>)
    requires Inv(c) && Enabled(c, s)
    requires s.BeginRecv? || s.LockForPoll? || s.DrainSome? || s.DrainDone? || s.Dequeue? || s.StoreWaker?
             || s.ReturnFromPoll?
    ensures Inv(Apply(c, s))
  {
    var d := Apply(c, s);
    if s.Dequeue? && c.queue != [] {
      assert c.received + [c.queue[0]] + c.queue[1..] == c.received + c.queue;
    }
  }

  // ----- runs ----------------------------------------------------------------

  ghost predicate Initial<T>(c: Channel<T>) {
    && c.socketCapacity > 0 && c.queue == [] && c.octets == 0 && !c.waker && c.lock == Free
    && (forall id :: id in c.senders ==> c.senders[id] == Outside)
    && c.receiver == Idle && !c.waiting && !c.asleep && c.offers == [] && c.received == []
  }

  /** An interleaving of the threads' steps. */
  datatype Schedule<T> = Done | Then(step: Step<T>, rest: Schedule<T>)

  /** d is reached from c by the schedule. */
  ghost predicate Leads<T>(c: Channel<T>, run: Schedule<T>, d: Channel<T>)
    decreases run
  {
    match run
    case Done => c == d
    case Then(s, rest) => Enabled(c, s) && Leads(Apply(c, s), rest, d)
  }

  lemma {:induction false} RunKeepsInv<T>(c: Channel<T>, run: Schedule<T>, d: Channel<T>)
    requires Inv(c) && Leads(c, run, d)
    ensures Inv(d)
    decreases run
  {
    if run.Then? {
      var s := run.step;
      if s.LockForSend? || s.Enqueue? || s.Signal? || s.Wake? || s.Clear? || s.UnlockSend? {
        SendKeepsInv(c, s);
      } else {
        ReceiveKeepsInv(c, s);
      }
      RunKeepsInv(Apply(c, s), run.rest, d);
    }
  }

  /** A sender has put its event in the queue and not yet reached the waker. */
  ghost predicate AboutToWake<T>(c: Channel<T>) {
    exists id :: id in c.senders && (c.senders[id].Signalling? || c.senders[id].Waking?)
  }

  ghost predicate AboutToSignal<T>(c: Channel<T>) {
    exists id :: id in c.senders && c.senders[id].Signalling?
  }

  /** No interleaving loses a wakeup: a sleeping task with something in the queue is
      about to be woken, and a receiver waiting on the socket with something in the
      queue has an unread signal octet or is about to get one. */
  lemma NoLostWakeup<T>(c: Channel<T>, run: Schedule<T>, d: Channel<T>)
    requires Initial(c) && Leads(c, run, d)
    ensures d.asleep && d.queue != [] ==> d.waker && AboutToWake(d)
    ensures d.waiting && d.queue != [] ==> d.octets > 0 || AboutToSignal(d)
    ensures d.waker && d.lock == Free ==> d.queue == []
  {
    RunKeepsInv(c, run, d);
  }

  /** Received events are the accepted offers in order, and only a full queue drops. */
  lemma ReceivedInOrder<T>(c: Channel<T>, run: Schedule<T>, d: Channel<T>)
    requires Initial(c) && Leads(c, run, d)
    ensures d.received <= Accepted(d.offers) && Accepted(d.offers) == d.received + d.queue
    ensures forall i :: 0 <= i < |d.offers| ==> (d.offers[i].accepted <==> d.offers[i].queued < d.capacity)
  {
    RunKeepsInv(c, run, d);
  }

  // ----- uninterrupted calls ----------------------------------------------------

  ghost function Append<T>(a: Schedule<T>, b: Schedule<T>): Schedule<T> {
    match a
    case Done => b
    case Then(s, rest) => Then(s, Append(rest, b))
  }

  lemma {:induction false} Concat<T>(c: Channel<T>, a: Schedule<T>, m: Channel<T>, b: Schedule<T>, d: Channel<T>)
    requires Leads(c, a, m) && Leads(m, b, d)
    ensures Leads(c, Append(a, b), d)
    decreases a
  {
    if a.Then? {
      Concat(Apply(c, a.step), a.rest, m, b, d);
    }
  }

  /** What one uninterrupted try_send does. */
  ghost function Sent<T>(c: Channel<T>, t: T): Channel<T> {
    var accepted := |c.queue| < c.capacity;
    c.(queue := if accepted then c.queue + [t] else c.queue,
       offers := c.offers + [Offer(t, accepted, |c.queue|)],
       octets := if c.octets < c.socketCapacity then c.octets + 1 else c.octets,
       asleep := c.asleep && !c.waker,
       waker := false)
  }

  ghost function SendSteps<T>(id: int, t: T): Schedule<T> {
    Then(LockForSend(id, t), Then(Enqueue(id), Then(Signal(id), WakeSteps(id))))
  }

  ghost function WakeSteps<T>(id: int): Schedule<T> {
    Then(Wake(id), Then(Clear(id), Then(UnlockSend(id), Done)))
  }

  lemma WakeLeads<T>(c: Channel<T>, id: int)
    requires At(c, id, Waking) && c.lock == HeldBySender(id)
    ensures Leads(c, WakeSteps(id), Moved(c, id, Outside).(asleep := c.asleep && !c.waker, waker := false, lock := Free))
  {
    var c1 := Apply(c, Wake(id));
    var c2 := Apply(c1, Clear(id));
    var c3 := Apply(c2, UnlockSend(id));
    assert c3.senders == c.senders[id := Outside];
    assert Leads(c2, Then(UnlockSend(id), Done), c3);
    assert Leads(c1, Then(Clear(id), Then(UnlockSend(id), Done)), c3);
  }

  lemma SignalLeads<T>(c: Channel<T>, id: int)
    requires At(c, id, Signalling) && c.lock == HeldBySender(id)
    ensures Leads(c, Then(Signal(id), WakeSteps(id)), Signalled(c, id))
  {
    var c1 := Apply(c, Signal(id));
    WakeLeads(c1, id);
    assert Moved(c1, id, Outside).senders == c.senders[id := Outside];
  }

  ghost function Signalled<T>(c: Channel<T>, id: int): Channel<T> {
    Moved(c, id, Outside).(
      octets := if c.octets < c.socketCapacity then c.octets + 1 else c.octets,
      asleep := c.asleep && !c.waker, waker := false, lock := Free)
  }

  lemma SendLeads<T>(c: Channel<T>, id: int, t: T)
    requires At(c, id, Outside) && c.lock == Free
    ensures Leads(c, SendSteps(id, t), Sent(c, t))
  {
    var c1 := Apply(c, LockForSend(id, t));
    var c2 := Apply(c1, Enqueue(id));
    SignalLeads(c2, id);
    assert Signalled(c2, id).senders == c.senders;
    assert Signalled(c2, id) == Sent(c, t);
  }

  /** What one uninterrupted try_recv does. */
  ghost function Received<T>(c: Channel<T>): Channel<T> {
    var e := c.(octets := 0, waiting := c.queue == []);
    if c.queue == [] then e else e.(queue := c.queue[1..], received := c.received + [c.queue[0]])
  }

  ghost function RecvSteps<T>(octets: nat): Schedule<T> {
    var rest := Then(DrainDone, Then(Dequeue, Done));
    Then(BeginRecv, if octets > 0 then Then(DrainSome(octets), rest) else rest)
  }

  lemma RecvLeads<T>(c: Channel<T>)
    requires c.receiver == Idle
    ensures Leads(c, RecvSteps(c.octets), Received(c))
  {
    var d := Received(c);
    var c1 := Apply(c, BeginRecv);
    var c2 := c1.(octets := 0);
    var c3 := Apply(c2, DrainDone);
    assert Leads(c3, Then(Dequeue, Done), d);
    assert Leads(c2, Then(DrainDone, Then(Dequeue, Done)), d);
    if c.octets > 0 {
      assert Apply(c1, DrainSome(c.octets)) == c2;
    }
  }

  /** What one uninterrupted poll_next does. */
  ghost function Polled<T>(c: Channel<T>): Channel<T> {
    var e := c.(octets := 0, waiting := false, asleep := c.queue == [], waker := c.waker || c.queue == []);
    if c.queue == [] then e else e.(queue := c.queue[1..], received := c.received + [c.queue[0]])
  }

  ghost function PollSteps<T>(octets: nat, empty: bool): Schedule<T> {
    var rest := Then(DrainDone, Then(Dequeue, LastSteps(empty)));
    Then(LockForPoll, if octets > 0 then Then(DrainSome(octets), rest) else rest)
  }

  ghost function LastSteps<T>(empty: bool): Schedule<T> {
    if empty then Then(StoreWaker, Then(ReturnFromPoll, Done)) else Then(ReturnFromPoll, Done)
  }

  lemma LastLeads<T>(c: Channel<T>)
    requires c.receiver == Storing || c.receiver == Returning(false)
    ensures var empty := c.receiver == Storing;
            Leads(c, LastSteps(empty),
                  c.(receiver := Idle, asleep := empty, lock := Free, waker := c.waker || empty))
  {
  }

  lemma PollLeads<T>(c: Channel<T>)
    requires c.receiver == Idle && c.lock == Free
    ensures Leads(c, PollSteps(c.octets, c.queue == []), Polled(c))
  {
    var c1 := Apply(c, LockForPoll);
    var c2 := c1.(octets := 0);
    var c3 := Apply(c2, DrainDone);
    LastLeads(Apply(c3, Dequeue));
    assert Leads(c2, Then(DrainDone, Then(Dequeue, LastSteps(c.queue == []))), Polled(c));
    if c.octets > 0 {
      assert Apply(c1, DrainSome(c.octets)) == c2;
    }
  }

  /** Receiving until the queue is found empty matters: after one successful receive
      the remaining event has neither an unread octet nor a sender on its way. */
  lemma OneReceiveIsNotEnough() returns (c: Channel<int>, run: Schedule<int>, d: Channel<int>)
    ensures Initial(c) && Leads(c, run, d)
    ensures d.receiver == Idle && d.received == [7] && d.queue == [8]
    ensures d.octets == 0 && !AboutToSignal(d)
  {
    c := Channel(16, 16, [], 0, false, Free, map[0 := Outside], Idle, false, false, [], []);
    var c1 := Sent(c, 7);
    var c2 := Sent(c1, 8);
    d := Received(c2);
    SendLeads(c, 0, 7);
    SendLeads(c1, 0, 8);
    RecvLeads(c2);
    Concat(c1, SendSteps(0, 8), c2, RecvSteps(2), d);
    Concat(c, SendSteps(0, 7), c1, Append(SendSteps(0, 8), RecvSteps(2)), d);
    run := Append(SendSteps(0, 7), Append(SendSteps(0, 8), RecvSteps(2)));
  }

  /** The channel as one thread at a time sees it. */
  class StatusChannel<T> {
    const capacity: nat
    const socketCapacity: nat
    var queue: seq<T>
    var octets: nat
    var waker: bool
    var wakeups: nat
    ghost var state: Channel<T>

    ghost predicate Valid()
      reads this
    {
      && state.capacity == capacity && state.socketCapacity == socketCapacity
      && state.queue == queue && state.octets == octets && state.waker == waker
      && state.lock == Free && state.receiver == Idle && At(state, 0, Outside)
      && Inv(state)
    }

    constructor (capacity: nat, socketCapacity: nat)
      requires socketCapacity > 0
      ensures Valid() && Initial(state)
    {
      this.capacity := capacity;
      this.socketCapacity := socketCapacity;
      queue, octets, waker, wakeups := [], 0, false, 0;
      state := Channel(capacity, socketCapacity, [], 0, false, Free, map[0 := Outside], Idle, false, false, [], []);
    }

    /** A write to a full socket does nothing. */
    method SendSignal()
      modifies this`octets
      ensures octets == if old(octets) < socketCapacity then old(octets) + 1 else old(octets)
    {
      if octets < socketCapacity {
        octets := octets + 1;
      }
    }

    /** Reads until the socket would block. */
    method Drain()
      modifies this`octets
      ensures octets == 0
    {
      while octets > 0 {
        octets := octets - Min(octets, 16);
      }
    }

    method TrySend(t: T)
      requires Valid()
      modifies this
      ensures Valid() && state == Sent(old(state), t)
      ensures Leads(old(state), SendSteps(0, t), state)
      ensures wakeups == old(wakeups) + if old(waker) then 1 else 0
    {
      SendLeads(state, 0, t);
      RunKeepsInv(state, SendSteps(0, t), Sent(state, t));
      state := Sent(state, t);
      if |queue| < capacity {
        queue := queue + [t];
      }
      SendSignal();
      if waker {
        wakeups := wakeups + 1;
      }
      waker := false;
    }

    method TryRecv() returns (r: Option<T>)
      requires Valid()
      modifies this
      ensures Valid() && state == Received(old(state)) && wakeups == old(wakeups)
      ensures Leads(old(state), RecvSteps(old(octets)), state)
      ensures r == if old(queue) == [] then None else Some(old(queue)[0])
    {
      RecvLeads(state);
      RunKeepsInv(state, RecvSteps(state.octets), Received(state));
      state := Received(state);
      Drain();
      if |queue| == 0 {
        r := None;
      } else {
        r := Some(queue[0]);
        queue := queue[1..];
      }
    }

    /** None stands for Pending: the waker is then stored. */
    method PollNext() returns (r: Option<T>)
      requires Valid()
      modifies this
      ensures Valid() && state == Polled(old(state)) && wakeups == old(wakeups)
      ensures Leads(old(state), PollSteps(old(octets), old(queue) == []), state)
      ensures r == if old(queue) == [] then None else Some(old(queue)[0])
    {
      PollLeads(state);
      RunKeepsInv(state, PollSteps(state.octets, state.queue == []), Polled(state));
      state := Polled(state);
      Drain();
      if |queue| == 0 {
        waker := true;
        r := None;
      } else {
        r := Some(queue[0]);
        queue := queue[1..];
      }
    }
  }
}
