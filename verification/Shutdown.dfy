/** The goroutines around one cooldown queue and how they shut down: the listener that enqueues and finally stops
    the queue, the cache's eviction callback, the consumer, and the caller of the service's Stop
    (watcher/cooldownqueue.go and continuousscanning/service.go), next to any number of other goroutines that
    call Enqueue. Every lock and channel operation is one step. */
module Shutdown {
  import opened Wrappers

  /** An event of the object with this key; `content` tells the object's events apart. */
  datatype Event = Event(key: string, content: nat)

  /** The goroutine of listen: its select loop, Enqueue, and the deferred Stop of the queue. */
  datatype Listener =
    | Selecting
    | WantsMu(event: Event)
    | HoldsMu(event: Event)
    | StopWantsChanMu
    | StopWantsMu
    | StopHoldsBoth
    | StopClosed
    | Finished

  /** The eviction callback: an entry has left the cache, its event is sent while chanMu is held. */
  datatype Evicter = Idle | WantsChanMu(event: Event) | Sending(event: Event) | Sent

  /** The goroutine of work: receive, handle, and close workDone once the channel is closed. */
  datatype Consumer = Receiving | Handling(event: Event) | RangeOver | WorkDone

  /** The caller of the service's Stop. */
  datatype Stopper = NotCalled | AwaitingWork | Returned

  /** Another goroutine that calls Enqueue. */
  datatype Client = Outside | ClientWantsMu(event: Event) | ClientHoldsMu(event: Event)

  datatype MuOwner = MuFree | ByListener | ByClient(i: nat)

  datatype ChanMuOwner = ChanMuFree | ByStop | ByEvicter

  datatype State = State(
    listener: Listener,
    evicter: Evicter,
    consumer: Consumer,
    stopper: Stopper,
    clients: seq<Client>,
    mu: MuOwner,
    chanMu: ChanMuOwner,
    closed: bool,
    channelClosed: bool,
    pending: map<string, Event>,
    accepted: seq<Event>,
    received: seq<Event>,
    panicked: bool)

  datatype Action =
    // from outside: an event arrives, a client calls Enqueue, a cooldown ends, Stop is called
    | Arrive(event: Event)
    | ClientCalls(i: nat, event: Event)
    | Expire(key: string)
    | CallStop
    // lock and channel operations
    | LockMu
    | EnqueueSets
    | SeeShutdown
    | StopLocksChanMu
    | StopLocksMu
    | StopCloses
    | StopUnlocks
    | ClientLocksMu(i: nat)
    | ClientSets(i: nat)
    | EvicterLocksChanMu
    | Send
    | EvicterUnlocks
    | Handled
    | RangeEnds
    | CloseWorkDone
    | StopReturns

  predicate External(a: Action) {
    a.Arrive? || a.ClientCalls? || a.Expire? || a.CallStop?
  }

  predicate Enabled(s: State, a: Action) {
    !s.panicked &&
    match a
    case Arrive(_) => s.listener.Selecting?
    case ClientCalls(i, _) => i < |s.clients| && s.clients[i].Outside?
    case Expire(key) => s.evicter.Idle? && key in s.pending
    case CallStop => s.stopper.NotCalled?
    case LockMu => s.listener.WantsMu? && s.mu.MuFree?
    case EnqueueSets => s.listener.HoldsMu?
    case SeeShutdown => s.listener.Selecting? && !s.stopper.NotCalled?
    case StopLocksChanMu => s.listener.StopWantsChanMu? && s.chanMu.ChanMuFree?
    case StopLocksMu => s.listener.StopWantsMu? && s.mu.MuFree?
    case StopCloses => s.listener.StopHoldsBoth?
    case StopUnlocks => s.listener.StopClosed?
    case ClientLocksMu(i) => i < |s.clients| && s.clients[i].ClientWantsMu? && s.mu.MuFree?
    case ClientSets(i) => i < |s.clients| && s.clients[i].ClientHoldsMu?
    case EvicterLocksChanMu => s.evicter.WantsChanMu? && s.chanMu.ChanMuFree?
    case Send => s.evicter.Sending? && (s.channelClosed || s.consumer.Receiving?)
    case EvicterUnlocks => s.evicter.Sent?
    case Handled => s.consumer.Handling?
    case RangeEnds => s.consumer.Receiving? && s.channelClosed
    case CloseWorkDone => s.consumer.RangeOver?
    case StopReturns => s.stopper.AwaitingWork? && s.consumer.WorkDone?
  }

  /** The body of Enqueue under its lock. */
  function Accept(s: State, e: Event): State {
    if s.closed then s else s.(pending := s.pending[e.key := e], accepted := s.accepted + [e])
  }

  function Step(s: State, a: Action): State
    requires Enabled(s, a)
  {
    match a
    case Arrive(e) => s.(listener := WantsMu(e))
    case ClientCalls(i, e) => s.(clients := s.clients[i := ClientWantsMu(e)])
    case Expire(key) => s.(pending := s.pending - {key}, evicter := WantsChanMu(s.pending[key]))
    case CallStop => s.(stopper := AwaitingWork)
    case LockMu => s.(listener := HoldsMu(s.listener.event), mu := ByListener)
    case EnqueueSets => Accept(s, s.listener.event).(listener := Selecting, mu := MuFree)
    case SeeShutdown => s.(listener := StopWantsChanMu)
    case StopLocksChanMu => s.(listener := StopWantsMu, chanMu := ByStop)
    case StopLocksMu => s.(listener := StopHoldsBoth, mu := ByListener)
    case StopCloses => s.(listener := StopClosed, closed := true, channelClosed := true)
    case StopUnlocks => s.(listener := Finished, mu := MuFree, chanMu := ChanMuFree)
    case ClientLocksMu(i) => s.(clients := s.clients[i := ClientHoldsMu(s.clients[i].event)], mu := ByClient(i))
    case ClientSets(i) => Accept(s, s.clients[i].event).(clients := s.clients[i := Outside], mu := MuFree)
    case EvicterLocksChanMu => s.(evicter := Sending(s.evicter.event), chanMu := ByEvicter)
    case Send =>
      if s.channelClosed then s.(panicked := true)
      else s.(evicter := Sent, consumer := Handling(s.evicter.event), received := s.received + [s.evicter.event])
    case EvicterUnlocks => s.(evicter := Idle, chanMu := ChanMuFree)
    case Handled => s.(consumer := Receiving)
    case RangeEnds => s.(consumer := RangeOver)
    case CloseWorkDone => s.(consumer := WorkDone)
    case StopReturns => s.(stopper := Returned)
  }

  ghost predicate Initial(s: State) {
    && s.listener.Selecting? && s.evicter.Idle? && s.consumer.Receiving? && s.stopper.NotCalled?
    && (forall i | 0 <= i < |s.clients| :: s.clients[i].Outside?)
    && s.mu.MuFree? && s.chanMu.ChanMuFree? && !s.closed && !s.channelClosed && s.pending == map[] && s.accepted == [] && s.received == [] && !s.panicked
  }

  ghost function Exec(s: State, acts: seq<Action>): Option<State>
    decreases |acts|
  {
    if acts == [] then Some(s)
    else if !Enabled(s, acts[0]) then None
    else Exec(Step(s, acts[0]), acts[1..])
  }

  ghost predicate Reachable(s: State) {
    exists s0, acts :: Initial(s0) && Exec(s0, acts) == Some(s)
  }

  // ---------------------------------------------------------------- mutual exclusion

  /** Who owns which lock, and what can be true only after the queue was stopped. */
  ghost predicate Consistent(s: State) {
    && (s.mu == ByListener <==> s.listener.HoldsMu? || s.listener.StopHoldsBoth? || s.listener.StopClosed?)
    && (forall i: nat :: s.mu == ByClient(i) <==> i < |s.clients| && s.clients[i].ClientHoldsMu?)
    && (s.chanMu == ByStop <==> s.listener.StopWantsMu? || s.listener.StopHoldsBoth? || s.listener.StopClosed?)
    && (s.chanMu == ByEvicter <==> s.evicter.Sending? || s.evicter.Sent?)
    && s.closed == s.channelClosed == (s.listener.StopClosed? || s.listener.Finished?)
    && (s.consumer.RangeOver? || s.consumer.WorkDone? ==> s.channelClosed)
    && (s.stopper.Returned? ==> s.consumer.WorkDone?)
    && (s.panicked ==> s.channelClosed)
    && (s.stopper.NotCalled? ==> BeforeStop(s.listener))
  }

  /** The listener has not seen the shutdown. */
  ghost predicate BeforeStop(l: Listener) {
    l.Selecting? || l.WantsMu? || l.HoldsMu?
  }

  lemma StepConsistent(s: State, a: Action)
    requires Consistent(s) && Enabled(s, a)
    ensures Consistent(Step(s, a))
  {
  }

  lemma {:induction false} ExecConsistent(s: State, acts: seq<Action>)
    requires Consistent(s) && Exec(s, acts).Some?
    ensures Consistent(Exec(s, acts).value)
    decreases |acts|
  {
    if acts != [] {
      StepConsistent(s, acts[0]);
      ExecConsistent(Step(s, acts[0]), acts[1..]);
    }
  }

  lemma ReachableConsistent(s: State)
    requires Reachable(s)
    ensures Consistent(s)
  {
    var s0, acts :| Initial(s0) && Exec(s0, acts) == Some(s);
    ExecConsistent(s0, acts);
  }

  function KeyOf(e: Event): string {
    e.key
  }

  /** The event of the object that is the least far along: pending, with the eviction callback, or received last. */
  ghost function Newest(s: State, key: string): Option<Event> {
    if key in s.pending then Some(s.pending[key])
    else if (s.evicter.WantsChanMu? || s.evicter.Sending?) && s.evicter.event.key == key then Some(s.evicter.event)
    else LastOf(s.received, KeyOf, key)
  }

  /** The event accepted last for an object is the newest one in the system. */
  ghost predicate Lossless(s: State) {
    && (forall key :: Newest(s, key) == LastOf(s.accepted, KeyOf, key))
    && (forall key | key in s.pending :: s.pending[key].key == key)
  }

  lemma AcceptLosslessAt(s: State, e: Event, key: string)
    requires Newest(s, key) == LastOf(s.accepted, KeyOf, key)
    ensures Newest(Accept(s, e), key) == LastOf(Accept(s, e).accepted, KeyOf, key)
  {
    LastOfAppend(s.accepted, e, KeyOf, key);
    if !s.closed {
      assert Accept(s, e).accepted == s.accepted + [e];
      assert key != e.key ==> Newest(Accept(s, e), key) == Newest(s, key);
    }
  }

  lemma AcceptLossless(s: State, e: Event)
    requires Lossless(s)
    ensures Lossless(Accept(s, e))
  {
    forall key
      ensures Newest(Accept(s, e), key) == LastOf(Accept(s, e).accepted, KeyOf, key)
    {
      AcceptLosslessAt(s, e, key);
    }
  }

  lemma SendLossless(s: State)
    requires Lossless(s) && Enabled(s, Send)
    ensures Lossless(Step(s, Send))
  {
    forall key
      ensures Newest(Step(s, Send), key) == LastOf(s.accepted, KeyOf, key)
    {
      LastOfAppend(s.received, s.evicter.event, KeyOf, key);
    }
  }

  /** The states agree on where events are. */
  ghost predicate SamePlaces(s: State, s': State) {
    && s'.accepted == s.accepted && s'.received == s.received && s'.pending == s.pending
    && forall key :: Newest(s', key) == Newest(s, key)
  }

  lemma StepLossless(s: State, a: Action)
    requires Lossless(s) && Enabled(s, a)
    ensures Lossless(Step(s, a))
  {
    match a
    case EnqueueSets =>
      AcceptLossless(s, s.listener.event);
      assert SamePlaces(Accept(s, s.listener.event), Step(s, a));
    case ClientSets(i) =>
      AcceptLossless(s, s.clients[i].event);
      assert SamePlaces(Accept(s, s.clients[i].event), Step(s, a));
    case Send => SendLossless(s);
    case Expire(key) =>
      assert forall k :: Newest(Step(s, a), k) == Newest(s, k);
    case _ => assert SamePlaces(s, Step(s, a));
  }

  lemma {:induction false} ExecLossless(s: State, acts: seq<Action>)
    requires Lossless(s) && Exec(s, acts).Some?
    ensures Lossless(Exec(s, acts).value)
    decreases |acts|
  {
    if acts != [] {
      StepLossless(s, acts[0]);
      ExecLossless(Step(s, acts[0]), acts[1..]);
    }
  }

  /** The latest accepted event of every object is accounted for in every reachable state, before and after the
      shutdown; with nothing left to deliver, the consumer has received it, as the last one of its object. */
  lemma NothingAcceptedIsLost(s: State)
    requires Reachable(s)
    ensures Lossless(s)
    ensures s.pending == map[] && s.evicter.Idle? ==>
              forall key :: LastOf(s.received, KeyOf, key) == LastOf(s.accepted, KeyOf, key)
  {
    var s0, acts :| Initial(s0) && Exec(s0, acts) == Some(s);
    ExecLossless(s0, acts);
    if s.pending == map[] && s.evicter.Idle? {
      forall key
        ensures LastOf(s.received, KeyOf, key) == LastOf(s.accepted, KeyOf, key)
      {
        assert Newest(s, key) == LastOf(s.received, KeyOf, key);
      }
    }
  }

  /** How often the consumer handled an event. */
  ghost function TimesHandled(acts: seq<Action>): nat {
    if acts == [] then 0 else (if acts[0].Handled? then 1 else 0) + TimesHandled(acts[1..])
  }

  ghost function InHand(s: State): nat {
    if s.consumer.Handling? then 1 else 0
  }

  /** The consumer is at the event it received last. */
  ghost predicate AtLastReceived(s: State) {
    s.consumer.Handling? ==> s.received != [] && s.consumer.event == s.received[|s.received| - 1]
  }

  /** The channel is unbuffered: every event received was handled, one at a time, but the one the consumer is at, which
      is the last. */
  lemma {:induction false} EveryReceivedEventHandled(s: State, acts: seq<Action>)
    requires AtLastReceived(s) && Exec(s, acts).Some?
    ensures var t := Exec(s, acts).value;
            |t.received| + InHand(s) == |s.received| + TimesHandled(acts) + InHand(t) && AtLastReceived(t)
    decreases |acts|
  {
    if acts != [] {
      EveryReceivedEventHandled(Step(s, acts[0]), acts[1..]);
    }
  }

  ghost function Bit(b: bool): nat {
    if b then 1 else 0
  }

  /** How often an event is in the cache, with the eviction callback, or received. */
  ghost function Copies(s: State, e: Event): nat {
    Bit(e.key in s.pending && s.pending[e.key] == e)
    + Bit((s.evicter.WantsChanMu? || s.evicter.Sending?) && s.evicter.event == e)
    + multiset(s.received)[e]
  }

  /** No event is delivered more often than it was accepted. */
  ghost predicate NothingRepeated(s: State) {
    && (forall e :: Copies(s, e) <= multiset(s.accepted)[e])
    && (forall key | key in s.pending :: s.pending[key].key == key)
  }

  lemma StepCopies(s: State, a: Action, e: Event)
    requires (forall key | key in s.pending :: s.pending[key].key == key) && Enabled(s, a)
    ensures Copies(Step(s, a), e) + multiset(s.accepted)[e] <= Copies(s, e) + multiset(Step(s, a).accepted)[e]
  {
    var s' := Step(s, a);
    match a
    case Expire(key) =>
    case Send =>
    case EnqueueSets =>
    case ClientSets(i) =>
    case _ => assert Copies(s', e) == Copies(s, e);
  }

  lemma {:induction false} ExecNothingRepeated(s: State, acts: seq<Action>)
    requires NothingRepeated(s) && Exec(s, acts).Some?
    ensures NothingRepeated(Exec(s, acts).value)
    decreases |acts|
  {
    if acts != [] {
      var s' := Step(s, acts[0]);
      forall e
        ensures Copies(s', e) <= multiset(s'.accepted)[e]
      {
        StepCopies(s, acts[0], e);
        assert Copies(s, e) <= multiset(s.accepted)[e];
      }
      ExecNothingRepeated(s', acts[1..]);
    }
  }

  /** Whatever is received was accepted, and no more often: an entry leaves the cache when it is delivered. */
  lemma NothingDeliveredTwice(s: State, e: Event)
    requires Reachable(s)
    ensures Copies(s, e) <= multiset(s.accepted)[e]
    ensures e in s.received ==> e in s.accepted
  {
    var s0, acts :| Initial(s0) && Exec(s0, acts) == Some(s);
    ExecNothingRepeated(s0, acts);
  }

  /** An open queue accepts what is enqueued, a closed one nothing, whoever enqueues. */
  lemma EnqueueAcceptsExactly(s: State, a: Action)
    requires Enabled(s, a)
    ensures a.EnqueueSets? ==>
              Step(s, a).accepted == s.accepted + if s.closed then [] else [s.listener.event]
    ensures a.ClientSets? ==>
              Step(s, a).accepted == s.accepted + if s.closed then [] else [s.clients[a.i].event]
    ensures !a.EnqueueSets? && !a.ClientSets? ==> Step(s, a).accepted == s.accepted
  {
    assert s.accepted + [] == s.accepted;
  }

  /** A client that enqueues while the lock is free gets its event into the queue. */
  lemma ClientEnqueues(s: State, i: nat, e: Event)
    requires i < |s.clients| && s.clients[i].Outside? && s.mu.MuFree? && !s.closed && !s.panicked
    ensures Exec(s, [ClientCalls(i, e), ClientLocksMu(i), ClientSets(i)])
         == Some(s.(pending := s.pending[e.key := e], accepted := s.accepted + [e]))
  {
    var s1 := Step(s, ClientCalls(i, e));
    var s2 := Step(s1, ClientLocksMu(i));
    var s3 := Step(s2, ClientSets(i));
    assert s3.clients == s.clients;
    assert [ClientCalls(i, e), ClientLocksMu(i), ClientSets(i)][1..] == [ClientLocksMu(i), ClientSets(i)];
    assert [ClientLocksMu(i), ClientSets(i)][1..] == [ClientSets(i)];
    assert Exec(s2, [ClientSets(i)]) == Exec(s3, []);
    assert Exec(s1, [ClientLocksMu(i), ClientSets(i)]) == Exec(s2, [ClientSets(i)]);
  }

  /** When the channel is closed, no send is in progress. */
  lemma NoSendInProgressAtClose(s: State)
    requires Reachable(s) && Enabled(s, StopCloses)
    ensures !s.evicter.Sending? && !s.evicter.Sent?
  {
    ReachableConsistent(s);
  }

  /** Once `closed` is set, it stays set, nothing is accepted any more, and the cache only shrinks. */
  lemma {:induction false} NothingAcceptedAfterClose(s: State, acts: seq<Action>)
    requires s.closed && Exec(s, acts).Some?
    ensures var t := Exec(s, acts).value;
            t.closed && t.accepted == s.accepted && t.pending.Keys <= s.pending.Keys
    decreases |acts|
  {
    if acts != [] {
      NothingAcceptedAfterClose(Step(s, acts[0]), acts[1..]);
    }
  }

  // ---------------------------------------------------------------- sending on the closed channel

  /** No entry is left that the eviction callback could still deliver. */
  ghost predicate NothingToDeliver(s: State) {
    s.pending == map[] && s.evicter.Idle?
  }

  lemma {:induction false} QuietCloseNeverPanics(s: State, acts: seq<Action>)
    requires s.closed && !s.panicked && NothingToDeliver(s) && Exec(s, acts).Some?
    ensures !Exec(s, acts).value.panicked
    decreases |acts|
  {
    if acts != [] {
      QuietCloseNeverPanics(Step(s, acts[0]), acts[1..]);
    }
  }

  /** After the channel is closed, a send on it is possible exactly when an event was still in the cache, or on
      its way from the cache to the channel, at that moment. */
  lemma PanicExactlyIfPending(s: State)
    requires Reachable(s) && Enabled(s, StopCloses)
    ensures (exists acts :: Exec(Step(s, StopCloses), acts).Some? && Exec(Step(s, StopCloses), acts).value.panicked)
            <==> s.pending != map[] || s.evicter.WantsChanMu?
  {
    ReachableConsistent(s);
    var t := Step(s, StopCloses);
    if s.pending != map[] || s.evicter.WantsChanMu? {
      var acts := PendingPanics(t);
    } else {
      forall acts | Exec(t, acts).Some?
        ensures !Exec(t, acts).value.panicked
      {
        QuietCloseNeverPanics(t, acts);
      }
    }
  }

  lemma PendingPanics(t: State) returns (acts: seq<Action>)
    requires t.listener.StopClosed? && t.channelClosed && !t.panicked
    requires t.evicter.WantsChanMu? || (t.evicter.Idle? && t.pending != map[])
    ensures NoArrivals(acts) && Exec(t, acts).Some? && Exec(t, acts).value.panicked
  {
    var u := Step(t, StopUnlocks);
    if t.evicter.WantsChanMu? {
      SendPanics(u);
      acts := [StopUnlocks, EvicterLocksChanMu, Send];
      assert acts[1..] == [EvicterLocksChanMu, Send];
    } else {
      var key :| key in t.pending;
      var rest := [Expire(key), EvicterLocksChanMu, Send];
      SendPanics(Step(u, Expire(key)));
      assert rest[1..] == [EvicterLocksChanMu, Send];
      assert Exec(u, rest) == Exec(Step(u, Expire(key)), [EvicterLocksChanMu, Send]);
      acts := [StopUnlocks] + rest;
      assert acts[1..] == rest;
    }
  }

  lemma SendPanics(u: State)
    requires u.evicter.WantsChanMu? && u.chanMu.ChanMuFree? && u.channelClosed && !u.panicked
    ensures Exec(u, [EvicterLocksChanMu, Send]).Some? && Exec(u, [EvicterLocksChanMu, Send]).value.panicked
  {
    var v := Step(u, EvicterLocksChanMu);
    assert [EvicterLocksChanMu, Send][1..] == [Send] && [Send][1..] == [];
    assert Exec(v, [Send]) == Exec(Step(v, Send), []);
  }

  // ---------------------------------------------------------------- shutdown completes

  /** Some goroutine is in the middle of something, or Stop was called and has not returned. */
  ghost predicate UnderWay(s: State) {
    || s.stopper.AwaitingWork?
    || !(s.listener.Selecting? || s.listener.Finished?) || !s.evicter.Idle?
    || s.consumer.Handling? || (exists i :: 0 <= i < |s.clients| && !s.clients[i].Outside?)
  }

  /** Before, while and after Stop is called, the goroutines never block each other: as long as one of them is in
      the middle of something, some lock or channel operation can go on. */
  lemma NeverStuck(s: State)
    requires Reachable(s) && !s.panicked && UnderWay(s)
    ensures exists a :: Enabled(s, a) && !External(a)
  {
    ReachableConsistent(s);
    var a := NextOperation(s);
  }

  lemma NextOperation(s: State) returns (a: Action)
    requires Consistent(s) && !s.panicked && UnderWay(s)
    ensures Enabled(s, a) && !External(a)
  {
    if s.consumer.RangeOver? { return CloseWorkDone; }
    if s.consumer.Handling? { return Handled; }
    if s.evicter.Sending? { return Send; }
    if s.evicter.Sent? { return EvicterUnlocks; }
    if s.mu.ByClient? {
      assert s.mu == ByClient(s.mu.i);
      return ClientSets(s.mu.i);
    }
    if ListenerMoves(s) {
      a := ListenerOperation(s);
      return;
    }
    if s.consumer.Receiving? && s.channelClosed { return RangeEnds; }
    if s.stopper.AwaitingWork? { return StopReturns; }
    if s.evicter.WantsChanMu? { return EvicterLocksChanMu; }
    var i :| 0 <= i < |s.clients| && !s.clients[i].Outside?;
    return ClientLocksMu(i);
  }

  /** The listener is inside Enqueue or Stop, or about to enter Stop. */
  ghost predicate ListenerMoves(s: State) {
    !s.listener.Finished? && (s.listener.Selecting? ==> !s.stopper.NotCalled?)
  }

  lemma ListenerOperation(s: State) returns (a: Action)
    requires Consistent(s) && !s.panicked && ListenerMoves(s)
    requires !s.evicter.Sending? && !s.evicter.Sent? && !s.mu.ByClient?
    ensures Enabled(s, a) && !External(a) && !a.EvicterLocksChanMu?
    ensures (a.SeeShutdown? ==> s.listener.Selecting?) && (a.StopCloses? ==> s.listener.StopHoldsBoth?)
  {
    match s.listener
    case Selecting => a := SeeShutdown;
    case WantsMu(_) => a := LockMu;
    case HoldsMu(_) => a := EnqueueSets;
    case StopWantsChanMu => a := StopLocksChanMu;
    case StopWantsMu => a := StopLocksMu;
    case StopHoldsBoth => a := StopCloses;
    case StopClosed => a := StopUnlocks;
  }

  ghost function ClientWork(c: Client): nat {
    match c case Outside => 0 case ClientHoldsMu(_) => 1 case ClientWantsMu(_) => 2
  }

  ghost function ClientsWork(cs: seq<Client>): nat {
    if cs == [] then 0 else ClientsWork(cs[..|cs| - 1]) + ClientWork(cs[|cs| - 1])
  }

  lemma {:induction false} ClientsWorkUpdate(cs: seq<Client>, i: nat, c: Client)
    requires i < |cs|
    ensures ClientsWork(cs[i := c]) + ClientWork(cs[i]) == ClientsWork(cs) + ClientWork(c)
  {
    var n := |cs| - 1;
    if i == n {
      assert cs[i := c][..n] == cs[..n];
    } else {
      assert cs[i := c][..n] == cs[..n][i := c];
      ClientsWorkUpdate(cs[..n], i, c);
    }
  }

  ghost function ListenerWork(l: Listener): nat {
    match l
    case WantsMu(_) => 7
    case HoldsMu(_) => 6
    case Selecting => 5
    case StopWantsChanMu => 4
    case StopWantsMu => 3
    case StopHoldsBoth => 2
    case StopClosed => 1
    case Finished => 0
  }

  ghost function EvicterWork(e: Evicter): nat {
    match e case WantsChanMu(_) => 4 case Sending(_) => 3 case Sent => 1 case Idle => 0
  }

  ghost function ConsumerWork(c: Consumer): nat {
    match c case Handling(_) => 3 case Receiving => 2 case RangeOver => 1 case WorkDone => 0
  }

  /** How many lock and channel operations are still to come, at most, if nothing new arrives. */
  ghost function Work(s: State): nat {
    ListenerWork(s.listener) + EvicterWork(s.evicter) + ConsumerWork(s.consumer) + ClientsWork(s.clients)
    + (if s.stopper.Returned? then 0 else 1) + (if s.panicked then 0 else 1)
  }

  /** Every lock or channel operation uses up some of the work, whichever goroutine the scheduler picks. */
  lemma OperationsUseUpWork(s: State, a: Action)
    requires Enabled(s, a) && !External(a)
    ensures Work(Step(s, a)) < Work(s)
  {
    match a
    case ClientLocksMu(i) => ClientsWorkUpdate(s.clients, i, ClientHoldsMu(s.clients[i].event));
    case ClientSets(i) => ClientsWorkUpdate(s.clients, i, Outside);
    case _ =>
  }

  ghost predicate AllInternal(acts: seq<Action>) {
    forall i | 0 <= i < |acts| :: !External(acts[i])
  }

  ghost predicate Maximal(s: State) {
    forall a :: Enabled(s, a) ==> External(a)
  }

  /** Whatever the schedule: from any reachable state in which Stop was called, at most Work(s) operations happen
      unless something new arrives, and when no more is possible, Stop has returned or the process has panicked. */
  lemma ShutdownCompletes(s: State, acts: seq<Action>)
    requires Reachable(s) && !s.stopper.NotCalled?
    requires AllInternal(acts) && Exec(s, acts).Some?
    ensures |acts| <= Work(s)
    ensures Maximal(Exec(s, acts).value) ==> Exec(s, acts).value.stopper.Returned? || Exec(s, acts).value.panicked
  {
    ReachableConsistent(s);
    OperationsRunOut(s, acts);
  }

  lemma {:induction false} OperationsRunOut(s: State, acts: seq<Action>)
    requires Consistent(s) && !s.stopper.NotCalled?
    requires AllInternal(acts) && Exec(s, acts).Some?
    ensures |acts| <= Work(s)
    ensures Maximal(Exec(s, acts).value) ==> Exec(s, acts).value.stopper.Returned? || Exec(s, acts).value.panicked
    decreases |acts|
  {
    if acts == [] {
      if s.stopper.AwaitingWork? && !s.panicked {
        var a := NextOperation(s);
      }
    } else {
      StepConsistent(s, acts[0]);
      OperationsUseUpWork(s, acts[0]);
      OperationsRunOut(Step(s, acts[0]), acts[1..]);
    }
  }

  // ---------------------------------------------------------------- when it is safe to call Stop

  /** No event arrives, and no other goroutine calls Enqueue. */
  ghost predicate NoArrivals(acts: seq<Action>) {
    forall i | 0 <= i < |acts| :: !acts[i].Arrive? && !acts[i].ClientCalls?
  }

  /** Someone is inside Enqueue. */
  ghost predicate Enqueueing(s: State) {
    s.listener.WantsMu? || s.listener.HoldsMu? || exists i :: 0 <= i < |s.clients| && !s.clients[i].Outside?
  }

  /** An event is in the cache, or about to enter it, or has left it and is not being sent yet. */
  ghost predicate Unsent(s: State) {
    s.pending != map[] || s.evicter.WantsChanMu? || Enqueueing(s)
  }

  /** The queue is open, Stop was called, and the unsent event will still be unsent when the channel is closed,
      unless the eviction callback comes first. */
  ghost predicate HeadsForPanic(s: State) {
    && Consistent(s) && !s.panicked && !s.closed && !s.stopper.NotCalled?
    && (s.pending != map[] || s.evicter.WantsChanMu? || (BeforeStop(s.listener) && Enqueueing(s)))
  }

  /** The next operation of a schedule that lets everybody but the eviction callback go first. */
  lemma NextTowardsClose(s: State) returns (a: Action)
    requires HeadsForPanic(s) && !s.listener.StopHoldsBoth?
    ensures Enabled(s, a) && !External(a) && !a.EvicterLocksChanMu? && !a.StopCloses?
    ensures a.SeeShutdown? ==> !Enqueueing(s)
  {
    if s.consumer.Handling? { return Handled; }
    if s.evicter.Sending? { return Send; }
    if s.evicter.Sent? { return EvicterUnlocks; }
    if s.mu.ByClient? {
      assert s.mu == ByClient(s.mu.i);
      return ClientSets(s.mu.i);
    }
    if s.listener.Selecting? {
      if i :| 0 <= i < |s.clients| && !s.clients[i].Outside? {
        return ClientLocksMu(i);
      }
    }
    a := ListenerOperation(s);
  }

  lemma StillHeadsForPanic(s: State, a: Action)
    requires HeadsForPanic(s) && Enabled(s, a)
    requires !External(a) && !a.EvicterLocksChanMu? && !a.StopCloses?
    requires a.SeeShutdown? ==> !Enqueueing(s)
    ensures HeadsForPanic(Step(s, a))
  {
    var s' := Step(s, a);
    StepConsistent(s, a);
    if a.EnqueueSets? {
      assert s.listener.event.key in s'.pending;
    } else if a.ClientSets? {
      assert s.clients[a.i].event.key in s'.pending;
    } else if a.ClientLocksMu? {
      assert !s'.clients[a.i].Outside?;
    } else {
      assert s'.clients == s.clients;
    }
  }

  lemma {:induction false} PanicsAfterClose(s: State) returns (acts: seq<Action>)
    requires HeadsForPanic(s)
    ensures NoArrivals(acts) && Exec(s, acts).Some? && Exec(s, acts).value.panicked
    decreases Work(s)
  {
    var a, rest;
    if s.listener.StopHoldsBoth? {
      a := StopCloses;
      rest := PendingPanics(Step(s, a));
    } else {
      a := NextTowardsClose(s);
      StillHeadsForPanic(s, a);
      OperationsUseUpWork(s, a);
      rest := PanicsAfterClose(Step(s, a));
    }
    acts := [a] + rest;
    assert acts[1..] == rest;
  }

  /** Nothing is unsent, and what is being sent goes to an open channel. */
  ghost predicate Quiet(s: State) {
    Consistent(s) && !s.panicked && !Unsent(s) && (s.evicter.Sending? ==> !s.channelClosed)
  }

  lemma StaysQuiet(s: State, a: Action)
    requires Quiet(s) && Enabled(s, a) && !a.Arrive? && !a.ClientCalls?
    ensures Quiet(Step(s, a))
  {
    StepConsistent(s, a);
    assert !a.ClientLocksMu? && !a.ClientSets? && !a.Expire?;
    assert Step(s, a).clients == s.clients;
  }

  lemma {:induction false} QuietNeverPanics(s: State, acts: seq<Action>)
    requires Quiet(s) && NoArrivals(acts) && Exec(s, acts).Some?
    ensures !Exec(s, acts).value.panicked
    decreases |acts|
  {
    if acts != [] {
      StaysQuiet(s, acts[0]);
      QuietNeverPanics(Step(s, acts[0]), acts[1..]);
    }
  }

  /** Calling Stop, with no event arriving from then on, can end in a send on the closed channel exactly if at the
      call an event is in the cache, on its way out of it, or being enqueued. */
  lemma StopCanPanicExactly(s: State)
    requires Reachable(s) && Enabled(s, CallStop)
    ensures (exists acts :: NoArrivals(acts) && Exec(Step(s, CallStop), acts).Some?
                            && Exec(Step(s, CallStop), acts).value.panicked)
            <==> s.pending != map[] || s.evicter.WantsChanMu? || Enqueueing(s)
  {
    ReachableConsistent(s);
    var t := Step(s, CallStop);
    StepConsistent(s, CallStop);
    assert Enqueueing(t) <==> Enqueueing(s);
    if Unsent(t) {
      var acts := PanicsAfterClose(t);
    } else {
      forall acts | NoArrivals(acts) && Exec(t, acts).Some?
        ensures !Exec(t, acts).value.panicked
      {
        QuietNeverPanics(t, acts);
      }
    }
  }

  /** As long as events may arrive, calling Stop is never safe: whatever the state at the call, there is a schedule
      that ends in a send on the closed channel. */
  lemma StopNeverSafeWhileEventsArrive(s: State, e: Event)
    requires Reachable(s) && Enabled(s, CallStop)
    ensures exists acts :: Exec(Step(s, CallStop), acts).Some? && Exec(Step(s, CallStop), acts).value.panicked
  {
    ReachableConsistent(s);
    var t := Step(s, CallStop);
    StepConsistent(s, CallStop);
    if t.listener.Selecting? {
      StepConsistent(t, Arrive(e));
      var rest := PanicsAfterClose(Step(t, Arrive(e)));
      assert ([Arrive(e)] + rest)[1..] == rest;
      assert Exec(t, [Arrive(e)] + rest) == Exec(Step(t, Arrive(e)), rest);
    } else {
      var acts := PanicsAfterClose(t);
    }
  }

  lemma {:induction false} ExecAppend(s: State, acts: seq<Action>, more: seq<Action>)
    requires Exec(s, acts).Some?
    ensures Exec(s, acts + more) == Exec(Exec(s, acts).value, more)
    decreases |acts|
  {
    if acts == [] {
      assert acts + more == more;
    } else {
      assert (acts + more)[1..] == acts[1..] + more;
      ExecAppend(Step(s, acts[0]), acts[1..], more);
    }
  }

  lemma EnqueueOne(s: State, e: Event)
    requires Initial(s)
    ensures Exec(s, [Arrive(e), LockMu, EnqueueSets]) == Some(s.(pending := map[e.key := e], accepted := [e]))
  {
    var s1 := s.(listener := WantsMu(e));
    var s2 := s1.(listener := HoldsMu(e), mu := ByListener);
    var s3 := s.(pending := map[e.key := e], accepted := [e]);
    assert Step(s, Arrive(e)) == s1 && Step(s1, LockMu) == s2 && Step(s2, EnqueueSets) == s3;
    assert [Arrive(e), LockMu, EnqueueSets][1..] == [LockMu, EnqueueSets] && [LockMu, EnqueueSets][1..] == [EnqueueSets];
    assert Exec(s2, [EnqueueSets]) == Exec(s3, []);
    assert Exec(s1, [LockMu, EnqueueSets]) == Exec(s2, [EnqueueSets]);
  }

  lemma StopLocks(s: State)
    requires s.listener.Selecting? && s.stopper.NotCalled? && s.mu.MuFree? && s.chanMu.ChanMuFree? && !s.panicked
    ensures Exec(s, [CallStop, SeeShutdown, StopLocksChanMu, StopLocksMu])
         == Some(s.(stopper := AwaitingWork, listener := StopHoldsBoth, mu := ByListener, chanMu := ByStop))
  {
    var s1 := s.(stopper := AwaitingWork);
    var s2 := s1.(listener := StopWantsChanMu);
    var s3 := s1.(listener := StopWantsMu, chanMu := ByStop);
    var s4 := s1.(listener := StopHoldsBoth, mu := ByListener, chanMu := ByStop);
    assert [CallStop, SeeShutdown, StopLocksChanMu, StopLocksMu][1..] == [SeeShutdown, StopLocksChanMu, StopLocksMu];
    assert [SeeShutdown, StopLocksChanMu, StopLocksMu][1..] == [StopLocksChanMu, StopLocksMu];
    assert [StopLocksChanMu, StopLocksMu][1..] == [StopLocksMu];
    assert Exec(s3, [StopLocksMu]) == Exec(s4, []);
    assert Exec(s2, [StopLocksChanMu, StopLocksMu]) == Exec(s3, [StopLocksMu]);
    assert Exec(s1, [SeeShutdown, StopLocksChanMu, StopLocksMu]) == Exec(s2, [StopLocksChanMu, StopLocksMu]);
  }

  /** One event is enqueued, and Stop is called before its cooldown is over: when the channel is about to be closed,
      the event is still in the cache. */
  lemma StopWithPendingEventExample(s: State, e: Event)
    requires Initial(s)
    ensures var acts := [Arrive(e), LockMu, EnqueueSets, CallStop, SeeShutdown, StopLocksChanMu, StopLocksMu];
            && Exec(s, acts).Some? && Enabled(Exec(s, acts).value, StopCloses)
            && Exec(s, acts).value.pending == map[e.key := e]
  {
    var acts, more := [Arrive(e), LockMu, EnqueueSets], [CallStop, SeeShutdown, StopLocksChanMu, StopLocksMu];
    EnqueueOne(s, e);
    StopLocks(Exec(s, acts).value);
    ExecAppend(s, acts, more);
    assert acts + more == [Arrive(e), LockMu, EnqueueSets, CallStop, SeeShutdown, StopLocksChanMu, StopLocksMu];
  }

  /** With no event unsent at the call of Stop, every complete schedule without arrivals ends with Stop returned. */
  lemma QuietShutdownReturns(s: State, acts: seq<Action>)
    requires Reachable(s) && Enabled(s, CallStop) && !Unsent(s)
    requires AllInternal(acts) && Exec(Step(s, CallStop), acts).Some? && Maximal(Exec(Step(s, CallStop), acts).value)
    ensures Exec(Step(s, CallStop), acts).value.stopper.Returned? && !Exec(Step(s, CallStop), acts).value.panicked
  {
    var t := Step(s, CallStop);
    ReachableConsistent(s);
    StepConsistent(s, CallStop);
    OperationsRunOut(t, acts);
    assert !Enqueueing(t);
    assert forall i | 0 <= i < |acts| :: !External(acts[i]);
    QuietNeverPanics(t, acts);
  }
}
