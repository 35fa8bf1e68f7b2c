/** The watch pool of continuousscanning/watchbuilder.go: one self-healing watch for each resource, a WaitGroup
    that tells when all were acquired, and one output channel. Each goroutine is a program counter. */
module WatchPool {
  import opened Wrappers
  import opened Watch

  /** A watch goroutine: not started yet, at the check of the context, creating a watch, relaying its events, or
      returned because the check found the context cancelled. */
  datatype Phase = NotStarted | Checking | Creating | Streaming | Exited

  /** `received` is everything read from the underlying watches so far, `hand` the event not yet passed on. */
  datatype SelfHealing = SelfHealing(phase: Phase, acquired: bool, received: seq<Event>, hand: seq<Event>)

  /** The goroutine of WatchPool.Run: starting the watches, waiting for the group, returned. */
  datatype Runner = Starting(next: nat) | WaitingForGroup | Returned

  datatype State = State(
    watches: seq<SelfHealing>,
    runner: Runner,
    waitGroup: int,
    out: seq<(nat, Event)>,
    consumed: nat,
    cancelled: bool)

  datatype Action =
    | Start
    | AllStarted
    | Proceed(i: nat)
    | AcquireFails(i: nat)
    | Acquire(i: nat)
    | Receive(i: nat, event: Event)
    | PassOn(i: nat)
    | StreamEnds(i: nat)
    | Cancel
    | Exit(i: nat)
    | Consume
    | Return

  predicate At(s: State, i: nat, phase: Phase) {
    i < |s.watches| && s.watches[i].phase == phase
  }

  predicate Enabled(capacity: nat, s: State, a: Action) {
    match a
    case Start => s.runner.Starting? && s.runner.next < |s.watches|
    case AllStarted => s.runner.Starting? && s.runner.next == |s.watches|
    case Proceed(i) => At(s, i, Checking) && !s.cancelled
    case AcquireFails(i) => At(s, i, Creating)
    case Acquire(i) => At(s, i, Creating)
    case Receive(i, _) => At(s, i, Streaming) && s.watches[i].hand == []
    case PassOn(i) => i < |s.watches| && s.watches[i].hand != [] && |s.out| - s.consumed < capacity
    case StreamEnds(i) => At(s, i, Streaming) && s.watches[i].hand == []
    case Cancel => true
    case Exit(i) => At(s, i, Checking) && s.cancelled
    case Consume => s.consumed < |s.out|
    case Return => s.runner.WaitingForGroup? && s.waitGroup == 0
  }

  /** A stream ends when its watch closes or the context is cancelled; both lead back to the check. */
  function Step(capacity: nat, s: State, a: Action): State
    requires Enabled(capacity, s, a)
  {
    match a
    case Start =>
      var i := s.runner.next;
      s.(waitGroup := s.waitGroup + 1, runner := Starting(i + 1),
         watches := s.watches[i := s.watches[i].(phase := Checking)])
    case AllStarted => s.(runner := WaitingForGroup)
    case Proceed(i) => s.(watches := s.watches[i := s.watches[i].(phase := Creating)])
    case AcquireFails(i) => s.(watches := s.watches[i := s.watches[i].(phase := Checking)])
    case Acquire(i) =>
      s.(waitGroup := if s.watches[i].acquired then s.waitGroup else s.waitGroup - 1,
         watches := s.watches[i := s.watches[i].(phase := Streaming, acquired := true)])
    case Receive(i, e) =>
      s.(watches := s.watches[i := s.watches[i].(received := s.watches[i].received + [e], hand := [e])])
    case PassOn(i) =>
      s.(out := s.out + [(i, s.watches[i].hand[0])], watches := s.watches[i := s.watches[i].(hand := [])])
    case StreamEnds(i) => s.(watches := s.watches[i := s.watches[i].(phase := Checking)])
    case Cancel => s.(cancelled := true)
    case Exit(i) => s.(watches := s.watches[i := s.watches[i].(phase := Exited)])
    case Consume => s.(consumed := s.consumed + 1)
    case Return => s.(runner := Returned)
  }

  ghost function Initial(n: nat): State {
    State(seq(n, i => SelfHealing(NotStarted, false, [], [])), Starting(0), 0, [], 0, false)
  }

  ghost function Exec(capacity: nat, s: State, acts: seq<Action>): Option<State>
    decreases |acts|
  {
    if acts == [] then Some(s)
    else if !Enabled(capacity, s, acts[0]) then None
    else Exec(capacity, Step(capacity, s, acts[0]), acts[1..])
  }

  ghost predicate Reachable(capacity: nat, s: State) {
    exists n, acts :: Exec(capacity, Initial(n), acts) == Some(s)
  }

  // ---------------------------------------------------------------- the invariant

  ghost function Started(s: State): nat {
    match s.runner case Starting(next) => next case _ => |s.watches|
  }

  ghost predicate Awaited(w: SelfHealing) {
    !w.phase.NotStarted? && !w.acquired
  }

  /** How many of the started watches have not been acquired yet. */
  ghost function Missing(ws: seq<SelfHealing>): nat {
    if ws == [] then 0 else Missing(ws[..|ws| - 1]) + if Awaited(ws[|ws| - 1]) then 1 else 0
  }

  lemma {:induction false} MissingUpdate(ws: seq<SelfHealing>, i: nat, w: SelfHealing)
    requires i < |ws|
    ensures Missing(ws[i := w]) + (if Awaited(ws[i]) then 1 else 0) == Missing(ws) + (if Awaited(w) then 1 else 0)
  {
    var n := |ws| - 1;
    if i == n {
      assert ws[i := w][..n] == ws[..n];
    } else {
      assert ws[i := w][..n] == ws[..n][i := w];
      MissingUpdate(ws[..n], i, w);
    }
  }

  lemma {:induction false} MissingNone(ws: seq<SelfHealing>)
    ensures Missing(ws) == 0 <==> forall i | 0 <= i < |ws| :: !Awaited(ws[i])
  {
    if ws != [] {
      MissingNone(ws[..|ws| - 1]);
      assert forall i | 0 <= i < |ws| - 1 :: ws[..|ws| - 1][i] == ws[i];
    }
  }

  /** The events of watch `i` in the output, in order. */
  ghost function From(out: seq<(nat, Event)>, i: nat): seq<Event> {
    if out == [] then []
    else From(out[..|out| - 1], i) + if out[|out| - 1].0 == i then [out[|out| - 1].1] else []
  }

  /** Which phases the watches can be in; Run has returned only after all were acquired. */
  ghost predicate Phased(s: State) {
    && Started(s) <= |s.watches|
    && (forall i | 0 <= i < |s.watches| :: s.watches[i].phase.NotStarted? <==> i >= Started(s))
    && (forall i | 0 <= i < |s.watches| :: s.watches[i].phase.Streaming? ==> s.watches[i].acquired)
    && (forall i | 0 <= i < |s.watches| :: s.watches[i].phase.NotStarted? ==> !s.watches[i].acquired)
    && (forall i | 0 <= i < |s.watches| :: s.watches[i].phase.Exited? ==> s.cancelled)
    && (s.runner.Returned? ==> forall i | 0 <= i < |s.watches| :: s.watches[i].acquired)
  }

  /** The group counts the watches that are started and still missing. */
  ghost predicate Counted(s: State) {
    Phased(s) && s.waitGroup == Missing(s.watches)
  }

  /** What a watch received is in the output, in its order, except for the event in its hand. */
  ghost predicate Merged(s: State) {
    forall i | 0 <= i < |s.watches| ::
      |s.watches[i].hand| <= 1 && From(s.out, i) + s.watches[i].hand == s.watches[i].received
  }

  lemma StepMissing(capacity: nat, s: State, a: Action)
    requires Phased(s) && Enabled(capacity, s, a)
    ensures var s' := Step(capacity, s, a);
            s'.waitGroup - Missing(s'.watches) == s.waitGroup - Missing(s.watches)
  {
    var s' := Step(capacity, s, a);
    match a {
      case Start => MissingUpdate(s.watches, s.runner.next, s'.watches[s.runner.next]);
      case Acquire(i) => MissingUpdate(s.watches, i, s'.watches[i]);
      case Receive(i, _) => MissingUpdate(s.watches, i, s'.watches[i]);
      case PassOn(i) => MissingUpdate(s.watches, i, s'.watches[i]);
      case Proceed(i) => MissingUpdate(s.watches, i, s'.watches[i]);
      case AcquireFails(i) => MissingUpdate(s.watches, i, s'.watches[i]);
      case StreamEnds(i) => MissingUpdate(s.watches, i, s'.watches[i]);
      case Exit(i) => MissingUpdate(s.watches, i, s'.watches[i]);
      case _ =>
    }
  }

  lemma StepPhased(capacity: nat, s: State, a: Action)
    requires Phased(s) && Enabled(capacity, s, a)
    requires a.Return? ==> forall i | 0 <= i < |s.watches| :: !Awaited(s.watches[i])
    ensures Phased(Step(capacity, s, a))
  {
  }

  lemma StepCounted(capacity: nat, s: State, a: Action)
    requires Counted(s) && Enabled(capacity, s, a)
    ensures Counted(Step(capacity, s, a))
  {
    StepMissing(capacity, s, a);
    MissingNone(s.watches);
    StepPhased(capacity, s, a);
  }

  lemma StepMerged(capacity: nat, s: State, a: Action)
    requires Merged(s) && Enabled(capacity, s, a)
    ensures Merged(Step(capacity, s, a))
  {
    var s' := Step(capacity, s, a);
    if a.PassOn? {
      assert s'.out[..|s.out|] == s.out;
    }
    forall i | 0 <= i < |s'.watches|
      ensures |s'.watches[i].hand| <= 1 && From(s'.out, i) + s'.watches[i].hand == s'.watches[i].received
    {
      assert From(s.out, i) + s.watches[i].hand == s.watches[i].received;
    }
  }

  /** Only a watch that is streaming has an event in hand. */
  ghost predicate Handed(s: State) {
    forall i | 0 <= i < |s.watches| :: s.watches[i].hand != [] ==> s.watches[i].phase.Streaming?
  }

  ghost predicate Invariant(s: State) {
    Counted(s) && Merged(s) && Handed(s)
  }

  lemma {:induction false} ExecInvariant(capacity: nat, s: State, acts: seq<Action>)
    requires Invariant(s) && Exec(capacity, s, acts).Some?
    ensures Invariant(Exec(capacity, s, acts).value)
    decreases |acts|
  {
    if acts != [] {
      StepCounted(capacity, s, acts[0]);
      StepMerged(capacity, s, acts[0]);
      ExecInvariant(capacity, Step(capacity, s, acts[0]), acts[1..]);
    }
  }

  lemma ReachableInvariant(capacity: nat, s: State)
    requires Reachable(capacity, s)
    ensures Invariant(s)
  {
    var n, acts :| Exec(capacity, Initial(n), acts) == Some(s);
    MissingNone(Initial(n).watches);
    ExecInvariant(capacity, Initial(n), acts);
  }

  // ---------------------------------------------------------------- readiness

  /** The counter is the number of started watches not yet acquired, so it never goes below zero, and Run has
      returned only if every watch was acquired. */
  lemma ReadinessProtocol(capacity: nat, s: State)
    requires Reachable(capacity, s)
    ensures s.waitGroup == Missing(s.watches) >= 0
    ensures s.runner.Returned? ==> forall i | 0 <= i < |s.watches| :: s.watches[i].acquired
  {
    ReachableInvariant(capacity, s);
  }

  /** The output merges the watches' streams: restricted to one watch it is what that watch received, in order
      and complete but for the event in its hand. */
  lemma OutputMergesStreams(capacity: nat, s: State, i: nat)
    requires Reachable(capacity, s) && i < |s.watches|
    ensures From(s.out, i) <= s.watches[i].received
    ensures |s.watches[i].received| <= |From(s.out, i)| + 1
    ensures s.watches[i].hand == [] ==> From(s.out, i) == s.watches[i].received
    ensures s.watches[i].hand != [] ==> s.watches[i].phase.Streaming?
  {
    ReachableInvariant(capacity, s);
  }

  /** A watch heals itself: once its stream has ended, another one is acquired, without the group being told again; or
      if the context is cancelled, the watch is left. A creation that fails is checked the same way. */
  lemma HealsOrLeaves(capacity: nat, s: State, i: nat)
    requires Reachable(capacity, s) && (At(s, i, Streaming) || At(s, i, Creating)) && s.watches[i].hand == []
    ensures var over := if At(s, i, Streaming) then StreamEnds(i) else AcquireFails(i);
            if s.cancelled then
              Exec(capacity, s, [over, Exit(i)]) == Some(s.(watches := s.watches[i := s.watches[i].(phase := Exited)]))
            else
              var healed := Exec(capacity, s, [over, Proceed(i), Acquire(i)]);
              healed.Some? && At(healed.value, i, Streaming) && (s.watches[i].acquired ==> healed.value.waitGroup == s.waitGroup)
  {
    var over := if At(s, i, Streaming) then StreamEnds(i) else AcquireFails(i);
    ReachableInvariant(capacity, s);
    var s1 := Step(capacity, s, over);
    if s.cancelled {
      var s2 := Step(capacity, s1, Exit(i));
      assert s2.watches == s.watches[i := s.watches[i].(phase := Exited)];
      assert [over, Exit(i)][1..] == [Exit(i)];
      assert Exec(capacity, s1, [Exit(i)]) == Exec(capacity, s2, []);
    } else {
      var s2 := Step(capacity, s1, Proceed(i));
      var s3 := Step(capacity, s2, Acquire(i));
      assert [over, Proceed(i), Acquire(i)][1..] == [Proceed(i), Acquire(i)];
      assert [Proceed(i), Acquire(i)][1..] == [Acquire(i)];
      assert Exec(capacity, s2, [Acquire(i)]) == Exec(capacity, s3, []);
      assert Exec(capacity, s1, [Proceed(i), Acquire(i)]) == Exec(capacity, s2, [Acquire(i)]);
    }
  }

  // ---------------------------------------------------------------- the output channel

  ghost predicate Buffered(capacity: nat, s: State) {
    s.consumed <= |s.out| <= s.consumed + capacity
  }

  lemma {:induction false} ExecBuffered(capacity: nat, s: State, acts: seq<Action>)
    requires Buffered(capacity, s) && Exec(capacity, s, acts).Some?
    ensures Buffered(capacity, Exec(capacity, s, acts).value)
    decreases |acts|
  {
    if acts != [] {
      ExecBuffered(capacity, Step(capacity, s, acts[0]), acts[1..]);
    }
  }

  /** The channel never holds more than its capacity, and as long as the consumer receives, every event that a watch has
      in hand gets through: at once if there is room, else after one receive. */
  lemma EveryEventGetsThrough(capacity: nat, s: State, i: nat)
    requires Reachable(capacity, s) && capacity > 0
    requires i < |s.watches| && s.watches[i].hand != []
    ensures Buffered(capacity, s)
    ensures var acts := if |s.out| - s.consumed < capacity then [PassOn(i)] else [Consume, PassOn(i)];
            && Exec(capacity, s, acts).Some?
            && Exec(capacity, s, acts).value.out == s.out + [(i, s.watches[i].hand[0])]
            && From(Exec(capacity, s, acts).value.out, i) == s.watches[i].received
  {
    var n, run :| Exec(capacity, Initial(n), run) == Some(s);
    ExecBuffered(capacity, Initial(n), run);
    ReachableInvariant(capacity, s);
    var hand := s.watches[i].hand;
    assert hand == [hand[0]];
    assert [Consume, PassOn(i)][1..] == [PassOn(i)] && [PassOn(i)][1..] == [];
    var s1 := if |s.out| - s.consumed < capacity then s else Step(capacity, s, Consume);
    var s2 := Step(capacity, s1, PassOn(i));
    assert Exec(capacity, s1, [PassOn(i)]) == Exec(capacity, s2, []);
    assert s2.out[..|s.out|] == s.out;
  }

  /** An event that the underlying watch delivers is the next one received, and gets through. */
  lemma DeliveredEventGetsThrough(capacity: nat, s: State, i: nat, e: Event)
    requires Reachable(capacity, s) && capacity > 0 && At(s, i, Streaming) && s.watches[i].hand == []
    ensures Enabled(capacity, s, Receive(i, e))
    ensures var s' := Step(capacity, s, Receive(i, e));
            && s'.watches[i].received == s.watches[i].received + [e]
            && exists acts :: Exec(capacity, s', acts).Some?
                              && From(Exec(capacity, s', acts).value.out, i) == From(s.out, i) + [e]
  {
    ReachableInvariant(capacity, s);
    var s' := Step(capacity, s, Receive(i, e));
    var n, run :| Exec(capacity, Initial(n), run) == Some(s);
    assert Exec(capacity, s, [Receive(i, e)]) == Some(s') by {
      assert [Receive(i, e)][1..] == [];
      assert Exec(capacity, s', []) == Some(s');
    }
    ExecAppend(capacity, Initial(n), run, [Receive(i, e)]);
    assert Reachable(capacity, s');
    EveryEventGetsThrough(capacity, s', i);
    assert From(s.out, i) == s.watches[i].received;
  }

  // ---------------------------------------------------------------- whether Run can return

  /** The check of a cancelled context stands between the watch and its first acquisition. */
  ghost predicate ShutOut(s: State, w: SelfHealing) {
    s.cancelled && !w.acquired && !w.phase.Creating?
  }

  ghost predicate NoneShutOut(s: State) {
    forall i | 0 <= i < |s.watches| :: !ShutOut(s, s.watches[i])
  }

  lemma {:induction false} ShutOutForever(capacity: nat, s: State, acts: seq<Action>, i: nat)
    requires Counted(s) && Exec(capacity, s, acts).Some?
    requires i < |s.watches| && ShutOut(s, s.watches[i])
    ensures !Exec(capacity, s, acts).value.runner.Returned?
    decreases |acts|
  {
    if acts != [] {
      StepCounted(capacity, s, acts[0]);
      ShutOutForever(capacity, Step(capacity, s, acts[0]), acts[1..], i);
    }
  }

  ghost function Togo(s: State): int {
    2 * (|s.watches| - Started(s)) + Missing(s.watches)
    + if s.runner.Starting? then 2 else if s.runner.Returned? then 0 else 1
  }

  /** A watch that is awaited can be acquired next, after the check of the context if need be. */
  lemma NextAcquisition(capacity: nat, s: State, i: nat) returns (acts: seq<Action>)
    requires Counted(s) && NoneShutOut(s)
    requires i < |s.watches| && Awaited(s.watches[i])
    ensures Exec(capacity, s, acts).Some?
    ensures var s' := Exec(capacity, s, acts).value; Counted(s') && NoneShutOut(s') && Togo(s') < Togo(s)
    decreases s.watches[i].phase.Checking?
  {
    if s.watches[i].phase.Creating? {
      var s' := Step(capacity, s, Acquire(i));
      StepCounted(capacity, s, Acquire(i));
      MissingUpdate(s.watches, i, s'.watches[i]);
      assert Exec(capacity, s', []) == Some(s');
      acts := [Acquire(i)];
    } else {
      var s' := Step(capacity, s, Proceed(i));
      StepCounted(capacity, s, Proceed(i));
      MissingUpdate(s.watches, i, s'.watches[i]);
      var rest := NextAcquisition(capacity, s', i);
      acts := [Proceed(i)] + rest;
      assert acts[1..] == rest;
    }
  }

  /** The next steps of a run in which Run returns: start, acquire, wait, return. */
  lemma NextTowardsReturn(capacity: nat, s: State) returns (acts: seq<Action>)
    requires Counted(s) && !s.runner.Returned? && NoneShutOut(s)
    ensures Exec(capacity, s, acts).Some?
    ensures var s' := Exec(capacity, s, acts).value; Counted(s') && NoneShutOut(s') && Togo(s') < Togo(s)
  {
    MissingNone(s.watches);
    if i :| 0 <= i < |s.watches| && Awaited(s.watches[i]) {
      acts := NextAcquisition(capacity, s, i);
    } else {
      var a := if s.runner.WaitingForGroup? then Return else if s.runner.next < |s.watches| then Start else AllStarted;
      StepCounted(capacity, s, a);
      if a.Start? {
        MissingUpdate(s.watches, s.runner.next, Step(capacity, s, a).watches[s.runner.next]);
      }
      assert Exec(capacity, Step(capacity, s, a), []) == Some(Step(capacity, s, a));
      acts := [a];
    }
  }

  lemma {:induction false} ExecAppend(capacity: nat, s: State, acts: seq<Action>, more: seq<Action>)
    requires Exec(capacity, s, acts).Some?
    ensures Exec(capacity, s, acts + more) == Exec(capacity, Exec(capacity, s, acts).value, more)
    decreases |acts|
  {
    if acts == [] {
      assert acts + more == more;
    } else {
      assert (acts + more)[1..] == acts[1..] + more;
      ExecAppend(capacity, Step(capacity, s, acts[0]), acts[1..], more);
    }
  }

  lemma {:induction false} RunReturns(capacity: nat, s: State) returns (acts: seq<Action>)
    requires Counted(s) && NoneShutOut(s)
    ensures Exec(capacity, s, acts).Some? && Exec(capacity, s, acts).value.runner.Returned?
    decreases Togo(s)
  {
    if s.runner.Returned? {
      return [];
    }
    var next := NextTowardsReturn(capacity, s);
    var rest := RunReturns(capacity, Exec(capacity, s, next).value);
    ExecAppend(capacity, s, next, rest);
    acts := next + rest;
  }

  /** WatchPool.Run can still return exactly as long as the context is not cancelled, and after that exactly if
      every watch was acquired already or is just being created: any other watch never signals the group. */
  lemma RunCanReturnExactly(capacity: nat, s: State)
    requires Reachable(capacity, s)
    ensures (exists acts :: Exec(capacity, s, acts).Some? && Exec(capacity, s, acts).value.runner.Returned?)
            <==> !s.cancelled || forall i | 0 <= i < |s.watches| :: s.watches[i].acquired || s.watches[i].phase.Creating?
  {
    ReachableInvariant(capacity, s);
    if i :| 0 <= i < |s.watches| && ShutOut(s, s.watches[i]) {
      forall acts | Exec(capacity, s, acts).Some?
        ensures !Exec(capacity, s, acts).value.runner.Returned?
      {
        ShutOutForever(capacity, s, acts, i);
      }
    } else {
      var acts := RunReturns(capacity, s);
    }
  }

  /** Cancelling the context before the first watch is started hangs Run for good, for any number of watches but
      none. */
  lemma CancelledBeforeStartHangs(capacity: nat, n: nat, acts: seq<Action>)
    requires n > 0 && Exec(capacity, Initial(n), [Cancel] + acts).Some?
    ensures !Exec(capacity, Initial(n), [Cancel] + acts).value.runner.Returned?
  {
    assert Exec(capacity, Initial(n), []) == Some(Initial(n));
    ReachableInvariant(capacity, Initial(n));
    var s := Step(capacity, Initial(n), Cancel);
    assert ([Cancel] + acts)[1..] == acts;
    StepCounted(capacity, Initial(n), Cancel);
    ShutOutForever(capacity, s, acts, 0);
  }
}
