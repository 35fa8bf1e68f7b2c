/** Two watch loops that each share two goroutines with a handler: SBOMWatch hands every event to the handler over
    an unbuffered channel (watcher/sbomwatcher.go), ApplicationProfileWatch through a cooldown queue
    (watcher/applicationprofilewatcher.go). In both, the handler sends commands and errors back to the loop. */
module Relay {
  import opened Wrappers
  import opened Watch

  // ---------------------------------------------------------------- what the handlers do with an event

  datatype Status = Blank | Ready | Completed | OtherStatus

  /** The annotations that matter; `present` is false when the object has none at all. */
  datatype Annotations = Annotations(
    present: bool,
    status: Option<Status>,
    complete: bool,
    instanceID: string,
    wlid: string,
    imageID: string,
    imageTag: string)

  /** `key` is the object's key in the cooldown queue; `supported` says whether the object has the type that the
      handler casts it to. */
  datatype Incoming = Incoming(key: string, eventType: EventType, supported: bool, annotations: Annotations)

  datatype Outcome = SendsCommand | SendsError | SendsNothing

  predicate SkipSBOM(a: Annotations) {
    !a.present || (a.status.Some? && a.status.value.OtherStatus?)
  }

  function SBOMOutcome(e: Incoming): Outcome {
    if !e.supported then SendsError
    else if e.eventType.Deleted? || e.eventType.Bookmark? then SendsNothing
    else if SkipSBOM(e.annotations) then SendsNothing
    else if e.annotations.imageID == "" || e.annotations.imageTag == "" then SendsError
    else SendsCommand
  }

  predicate SkipApplicationProfile(a: Annotations) {
    !a.present || !a.complete || (a.status.Some? && a.status.value.OtherStatus?) || a.instanceID == "" || a.wlid == ""
  }

  function ApplicationProfileOutcome(e: Incoming): Outcome {
    if !e.supported then SendsError
    else if e.eventType.Deleted? || e.eventType.Bookmark? then SendsNothing
    else if SkipApplicationProfile(e.annotations) then SendsNothing
    else SendsCommand
  }

  /** A present status counts unless it is a known one; an absent one always does. */
  ghost predicate StatusCounts(a: Annotations) {
    a.status == None || a.status == Some(Blank) || a.status == Some(Ready) || a.status == Some(Completed)
  }

  /** What the SBOM handler answers: an error for an object of another type, and for one that counts but lacks an image;
      a command for one that counts and has image ID and tag; nothing for deletions, bookmarks and the rest. */
  lemma SBOMAnswersExactly(e: Incoming)
    ensures var live := e.eventType != EventType.Deleted && e.eventType != Bookmark;
            var counts := e.supported && live && e.annotations.present && StatusCounts(e.annotations);
            var image := e.annotations.imageID != "" && e.annotations.imageTag != "";
            && (SBOMOutcome(e) == SendsError <==> !e.supported || (counts && !image))
            && (SBOMOutcome(e) == SendsCommand <==> counts && image)
  {
  }

  /** What the profile handler answers: an error for an object of another type; a command for a complete profile whose
      status counts and that names its instance and workload; nothing for deletions, bookmarks and the rest. */
  lemma ProfileAnswersExactly(e: Incoming)
    ensures ApplicationProfileOutcome(e) == SendsError <==> !e.supported
    ensures ApplicationProfileOutcome(e) == SendsCommand <==>
            && e.supported && e.eventType != EventType.Deleted && e.eventType != Bookmark
            && e.annotations.present && e.annotations.complete && StatusCounts(e.annotations)
            && e.annotations.instanceID != "" && e.annotations.wlid != ""
  {
  }

  // ---------------------------------------------------------------- the goroutines

  datatype Mode = Direct | Queued

  function OutcomeOf(m: Mode, e: Incoming): Outcome {
    match m case Direct => SBOMOutcome(e) case Queued => ApplicationProfileOutcome(e)
  }

  /** The select loop; `Occupied` covers adding a command to the pool, logging an error, and replacing the watcher. */
  datatype Loop = Selecting | Forwarding(event: Incoming) | Occupied

  datatype Handler = Receiving | Deciding(event: Incoming) | Answering(event: Incoming)

  /** The eviction callback of the queue. */
  datatype Evicter = Idle | Delivering(event: Incoming)

  /** `arrived` are all events so far, `handled` those the handler is done with, `answered` those among them that
      it sent a command or an error for. */
  datatype State = State(
    loop: Loop,
    handler: Handler,
    cache: map<string, Incoming>,
    evicter: Evicter,
    arrived: seq<Incoming>,
    handled: seq<Incoming>,
    answered: seq<Incoming>)

  const START := State(Selecting, Receiving, map[], Idle, [], [], [])

  datatype Action =
    | Arrive(event: Incoming)
    | WatcherDown
    | Forward
    | Expire(key: string)
    | Deliver
    | Decide
    | Answer
    | Resume

  /** What the environment does: events arrive, watchers break. */
  predicate External(a: Action) {
    a.Arrive? || a.WatcherDown?
  }

  predicate Enabled(m: Mode, s: State, a: Action) {
    match a
    case Arrive(_) => s.loop.Selecting?
    case WatcherDown => s.loop.Selecting?
    case Forward => s.loop.Forwarding? && (m.Queued? || s.handler.Receiving?)
    case Expire(key) => m.Queued? && s.evicter.Idle? && key in s.cache
    case Deliver => s.evicter.Delivering? && s.handler.Receiving?
    case Decide => s.handler.Deciding?
    case Answer => s.handler.Answering? && s.loop.Selecting?
    case Resume => s.loop.Occupied?
  }

  function Step(m: Mode, s: State, a: Action): State
    requires Enabled(m, s, a)
  {
    match a
    case Arrive(e) => s.(loop := Forwarding(e), arrived := s.arrived + [e])
    case WatcherDown => s.(loop := Occupied)
    case Forward =>
      if m.Queued? then s.(loop := Selecting, cache := s.cache[s.loop.event.key := s.loop.event])
      else s.(loop := Selecting, handler := Deciding(s.loop.event))
    case Expire(key) => s.(cache := s.cache - {key}, evicter := Delivering(s.cache[key]))
    case Deliver => s.(evicter := Idle, handler := Deciding(s.evicter.event))
    case Decide =>
      if OutcomeOf(m, s.handler.event).SendsNothing? then
        s.(handler := Receiving, handled := s.handled + [s.handler.event])
      else s.(handler := Answering(s.handler.event))
    case Answer =>
      s.(loop := Occupied, handler := Receiving,
         handled := s.handled + [s.handler.event], answered := s.answered + [s.handler.event])
    case Resume => s.(loop := Selecting)
  }

  ghost function Exec(m: Mode, s: State, acts: seq<Action>): Option<State>
    decreases |acts|
  {
    if acts == [] then Some(s)
    else if !Enabled(m, s, acts[0]) then None
    else Exec(m, Step(m, s, acts[0]), acts[1..])
  }

  ghost predicate Reachable(m: Mode, s: State) {
    exists acts :: Exec(m, START, acts) == Some(s)
  }

  ghost predicate AtRest(s: State) {
    s.loop.Selecting? && s.handler.Receiving? && s.evicter.Idle? && s.cache == map[]
  }

  function KeyOf(e: Incoming): string {
    e.key
  }

  /** The event of the object that is the least far along: with the loop, in the cache, with the eviction callback,
      with the handler, or the last one handled. */
  ghost function Newest(s: State, key: string): Option<Incoming> {
    if s.loop.Forwarding? && s.loop.event.key == key then Some(s.loop.event)
    else if key in s.cache then Some(s.cache[key])
    else if s.evicter.Delivering? && s.evicter.event.key == key then Some(s.evicter.event)
    else if !s.handler.Receiving? && s.handler.event.key == key then Some(s.handler.event)
    else LastOf(s.handled, KeyOf, key)
  }

  ghost function AnswersTo(m: Mode, events: seq<Incoming>): seq<Incoming> {
    if events == [] then []
    else
      var last := events[|events| - 1];
      AnswersTo(m, events[..|events| - 1]) + if OutcomeOf(m, last).SendsNothing? then [] else [last]
  }

  /** The latest event of every object is on its way or handled; without a queue even the whole sequence of events
      is. What was answered is what deserves an answer among the handled events. */
  ghost predicate Accounted(m: Mode, s: State) {
    && (forall key :: Newest(s, key) == LastOf(s.arrived, KeyOf, key))
    && (forall key | key in s.cache :: s.cache[key].key == key)
    && s.answered == AnswersTo(m, s.handled)
    && (s.handler.Answering? ==> !OutcomeOf(m, s.handler.event).SendsNothing?)
    && (m.Direct? ==> s.cache == map[] && s.evicter.Idle? && s.arrived == s.handled + InHand(s))
  }

  /** What the handler and the loop hold. */
  ghost function InHand(s: State): seq<Incoming> {
    (if s.handler.Receiving? then [] else [s.handler.event]) + (if s.loop.Forwarding? then [s.loop.event] else [])
  }

  lemma StepNewest(m: Mode, s: State, a: Action, key: string)
    requires Accounted(m, s) && Enabled(m, s, a)
    ensures Newest(Step(m, s, a), key) == LastOf(Step(m, s, a).arrived, KeyOf, key)
  {
    if a.Arrive? {
      LastOfAppend(s.arrived, a.event, KeyOf, key);
    } else if Step(m, s, a).handled != s.handled {
      LastOfAppend(s.handled, s.handler.event, KeyOf, key);
    }
  }

  lemma StepAnswers(m: Mode, s: State, a: Action)
    requires Accounted(m, s) && Enabled(m, s, a)
    ensures Step(m, s, a).answered == AnswersTo(m, Step(m, s, a).handled)
  {
    var s' := Step(m, s, a);
    if s'.handled != s.handled {
      assert s'.handled[..|s.handled|] == s.handled;
    }
  }

  lemma StepAccounted(m: Mode, s: State, a: Action)
    requires Accounted(m, s) && Enabled(m, s, a)
    ensures Accounted(m, Step(m, s, a))
  {
    forall key
      ensures Newest(Step(m, s, a), key) == LastOf(Step(m, s, a).arrived, KeyOf, key)
    {
      StepNewest(m, s, a, key);
    }
    StepAnswers(m, s, a);
  }

  lemma {:induction false} ExecAccounted(m: Mode, s: State, acts: seq<Action>)
    requires Accounted(m, s) && Exec(m, s, acts).Some?
    ensures Accounted(m, Exec(m, s, acts).value)
    decreases |acts|
  {
    if acts != [] {
      StepAccounted(m, s, acts[0]);
      ExecAccounted(m, Step(m, s, acts[0]), acts[1..]);
    }
  }

  /** Neither loop loses the latest event of an object, and each answers exactly the handled events that deserve it.
      At rest, the event handled last for an object is the one that arrived last; without a queue, all events were
      handled, in order. */
  lemma NothingIsLost(m: Mode, s: State)
    requires Reachable(m, s)
    ensures Accounted(m, s)
    ensures AtRest(s) ==> forall key :: LastOf(s.handled, KeyOf, key) == LastOf(s.arrived, KeyOf, key)
    ensures AtRest(s) && m.Direct? ==> s.handled == s.arrived
  {
    var acts :| Exec(m, START, acts) == Some(s);
    ExecAccounted(m, START, acts);
    if AtRest(s) {
      forall key
        ensures LastOf(s.handled, KeyOf, key) == LastOf(s.arrived, KeyOf, key)
      {
        assert Newest(s, key) == LastOf(s.handled, KeyOf, key);
      }
    }
  }

  ghost predicate CanMove(m: Mode, s: State) {
    exists a :: Enabled(m, s, a) && !External(a)
  }

  /** The select loop does one thing at a time: after an answer, or while it replaces a watcher, it takes neither an
      event nor an answer until it is done. */
  lemma OneThingAtATime(m: Mode, s: State, a: Action, b: Action)
    requires Enabled(m, s, a) && (a.Answer? || a.WatcherDown?)
    ensures var s' := Step(m, s, a);
            && (b.Arrive? || b.WatcherDown? || b.Answer? || b.Forward? ==> !Enabled(m, s', b))
            && Enabled(m, s', Resume) && Step(m, s', Resume).loop.Selecting?
  {
  }

  // ---------------------------------------------------------------- with a queue in between

  /** Through the queue, the loop and the handler never block each other: whatever is under way can go on. */
  lemma QueuedNeverStuck(s: State)
    requires !AtRest(s)
    ensures CanMove(Queued, s)
  {
    if s.loop.Forwarding? {
      assert Enabled(Queued, s, Forward);
    } else if s.loop.Occupied? {
      assert Enabled(Queued, s, Resume);
    } else if s.handler.Deciding? {
      assert Enabled(Queued, s, Decide);
    } else if s.handler.Answering? {
      assert Enabled(Queued, s, Answer);
    } else if s.evicter.Delivering? {
      assert Enabled(Queued, s, Deliver);
    } else {
      var key :| key in s.cache;
      assert Enabled(Queued, s, Expire(key));
    }
  }

  ghost function Work(s: State): nat {
    (match s.loop case Forwarding(_) => 6 case Occupied => 1 case Selecting => 0)
    + (match s.handler case Deciding(_) => 3 case Answering(_) => 2 case Receiving => 0)
    + (if s.evicter.Idle? then 0 else 4)
    + 5 * |s.cache|
  }

  /** Through the queue everything that arrived gets handled, whatever the schedule: the number of steps that are
      not the environment's is bounded, and when none is possible any more, the system is at rest. */
  lemma {:induction false} QueuedDrains(s: State, acts: seq<Action>)
    requires Exec(Queued, s, acts).Some?
    requires forall i | 0 <= i < |acts| :: !External(acts[i])
    ensures |acts| <= Work(s)
    ensures !CanMove(Queued, Exec(Queued, s, acts).value) ==> AtRest(Exec(Queued, s, acts).value)
    decreases |acts|
  {
    if acts == [] {
      if !AtRest(s) {
        QueuedNeverStuck(s);
      }
    } else {
      var s' := Step(Queued, s, acts[0]);
      if acts[0].Forward? {
        assert |s'.cache| <= |s.cache| + 1;
      } else if acts[0].Expire? {
        assert s'.cache.Keys == s.cache.Keys - {acts[0].key};
        assert |s'.cache| == |s'.cache.Keys| && |s.cache| == |s.cache.Keys|;
      }
      QueuedDrains(s', acts[1..]);
    }
  }

  // ---------------------------------------------------------------- without one

  /** The loop holds an event for the handler, which itself has an answer for the loop, or is about to. */
  ghost predicate Doomed(s: State) {
    s.loop.Forwarding? &&
    (s.handler.Answering? || (s.handler.Deciding? && !SBOMOutcome(s.handler.event).SendsNothing?))
  }

  ghost predicate MutuallyBlocked(s: State) {
    s.loop.Forwarding? && s.handler.Answering?
  }

  lemma {:induction false} DirectKeepsNoQueue(s: State, acts: seq<Action>)
    requires s.evicter.Idle? && s.cache == map[] && Exec(Direct, s, acts).Some?
    ensures Exec(Direct, s, acts).value.evicter.Idle? && Exec(Direct, s, acts).value.cache == map[]
    decreases |acts|
  {
    if acts != [] {
      DirectKeepsNoQueue(Step(Direct, s, acts[0]), acts[1..]);
    }
  }

  /** The SBOM loop is stuck exactly when the loop sends to the handler while the handler sends to the loop. */
  lemma DirectStuckExactly(s: State)
    requires Reachable(Direct, s) && !AtRest(s)
    ensures !CanMove(Direct, s) <==> MutuallyBlocked(s)
  {
    var acts :| Exec(Direct, START, acts) == Some(s);
    DirectKeepsNoQueue(START, acts);
    if s.loop.Forwarding? && s.handler.Receiving? {
      assert Enabled(Direct, s, Forward);
    } else if s.loop.Occupied? {
      assert Enabled(Direct, s, Resume);
    } else if s.handler.Deciding? {
      assert Enabled(Direct, s, Decide);
    } else if s.handler.Answering? && s.loop.Selecting? {
      assert Enabled(Direct, s, Answer);
    }
  }

  /** Any two events in a row can block the SBOM loop, if the first one makes the handler answer. */
  lemma TwoEventsBlockSBOMWatch(s: State, e1: Incoming, e2: Incoming)
    requires AtRest(s) && !SBOMOutcome(e1).SendsNothing?
    ensures var acts := [Arrive(e1), Forward, Decide, Arrive(e2)];
            && Exec(Direct, s, acts).Some? && MutuallyBlocked(Exec(Direct, s, acts).value)
            && Exec(Direct, s, acts).value.arrived == s.arrived + [e1, e2]
  {
    var acts := [Arrive(e1), Forward, Decide, Arrive(e2)];
    var s1 := Step(Direct, s, Arrive(e1));
    var s2 := Step(Direct, s1, Forward);
    var s3 := Step(Direct, s2, Decide);
    assert acts[1..] == [Forward, Decide, Arrive(e2)];
    assert acts[1..][1..] == [Decide, Arrive(e2)];
    assert [Decide, Arrive(e2)][1..] == [Arrive(e2)];
    assert Exec(Direct, s3, [Arrive(e2)]) == Exec(Direct, Step(Direct, s3, Arrive(e2)), []);
    assert Exec(Direct, s2, [Decide, Arrive(e2)]) == Exec(Direct, s3, [Arrive(e2)]);
    assert Exec(Direct, s1, acts[1..]) == Exec(Direct, s2, [Decide, Arrive(e2)]);
  }

  lemma {:induction false} DoomedForever(s: State, acts: seq<Action>)
    requires Doomed(s) && s.evicter.Idle? && s.cache == map[] && Exec(Direct, s, acts).Some?
    ensures var t := Exec(Direct, s, acts).value; Doomed(t) && t.answered == s.answered
    decreases |acts|
  {
    if acts != [] {
      DoomedForever(Step(Direct, s, acts[0]), acts[1..]);
    }
  }

  lemma {:induction false} UndoomedDrains(s: State) returns (acts: seq<Action>)
    requires s.evicter.Idle? && s.cache == map[] && !Doomed(s)
    ensures (forall i | 0 <= i < |acts| :: !External(acts[i]))
    ensures Exec(Direct, s, acts).Some? && AtRest(Exec(Direct, s, acts).value)
    decreases Work(s)
  {
    if AtRest(s) {
      return [];
    }
    var a :=
      if s.loop.Occupied? then Resume
      else if s.handler.Deciding? then Decide
      else if s.handler.Answering? then Answer
      else Forward;
    var rest := UndoomedDrains(Step(Direct, s, a));
    acts := [a] + rest;
    assert acts[1..] == rest;
  }

  /** The point of no return: the SBOM loop can still work off what it has exactly as long as it does not hold
      an event while the handler has an answer to give. */
  lemma DirectRecoversExactly(s: State)
    requires Reachable(Direct, s)
    ensures (exists acts :: (forall i | 0 <= i < |acts| :: !External(acts[i]))
                            && Exec(Direct, s, acts).Some? && AtRest(Exec(Direct, s, acts).value))
            <==> !Doomed(s)
  {
    var run :| Exec(Direct, START, run) == Some(s);
    DirectKeepsNoQueue(START, run);
    if Doomed(s) {
      forall acts | Exec(Direct, s, acts).Some?
        ensures !AtRest(Exec(Direct, s, acts).value)
      {
        DoomedForever(s, acts);
      }
    } else {
      var acts := UndoomedDrains(s);
    }
  }

  // ---------------------------------------------------------------- which events block the SBOM loop

  lemma {:induction false} ExecAppend(m: Mode, s: State, acts: seq<Action>, more: seq<Action>)
    requires Exec(m, s, acts).Some?
    ensures Exec(m, s, acts + more) == Exec(m, Exec(m, s, acts).value, more)
    decreases |acts|
  {
    if acts == [] {
      assert acts + more == more;
    } else {
      assert (acts + more)[1..] == acts[1..] + more;
      ExecAppend(m, Step(m, s, acts[0]), acts[1..], more);
    }
  }

  lemma ReachableExec(m: Mode, s: State, acts: seq<Action>)
    requires Reachable(m, s) && Exec(m, s, acts).Some?
    ensures Reachable(m, Exec(m, s, acts).value)
  {
    var run :| Exec(m, START, run) == Some(s);
    ExecAppend(m, START, run, acts);
  }

  lemma {:induction false} OnlyArrivalsArrive(s: State, acts: seq<Action>)
    requires Exec(Direct, s, acts).Some? && forall i | 0 <= i < |acts| :: !External(acts[i])
    ensures Exec(Direct, s, acts).value.arrived == s.arrived
    decreases |acts|
  {
    if acts != [] {
      assert !External(acts[0]);
      OnlyArrivalsArrive(Step(Direct, s, acts[0]), acts[1..]);
    }
  }

  /** With enough time between them, any events are worked off. */
  lemma {:induction false} RestAfter(es: seq<Incoming>) returns (s: State)
    ensures Reachable(Direct, s) && AtRest(s) && s.arrived == es
  {
    if es == [] {
      s := START;
      assert Exec(Direct, START, []) == Some(START);
    } else {
      var n := |es| - 1;
      var s0 := RestAfter(es[..n]);
      var s1 := Step(Direct, s0, Arrive(es[n]));
      var s2 := Step(Direct, s1, Forward);
      var rest := UndoomedDrains(s2);
      OnlyArrivalsArrive(s2, rest);
      assert ([Arrive(es[n]), Forward] + rest)[1..] == [Forward] + rest;
      assert ([Forward] + rest)[1..] == rest;
      assert Exec(Direct, s1, [Forward] + rest) == Exec(Direct, s2, rest);
      ReachableExec(Direct, s0, [Arrive(es[n]), Forward] + rest);
      s := Exec(Direct, s2, rest).value;
      assert s.arrived == es;
    }
  }

  lemma BlockedOnAnEarlierAnswer(s: State)
    requires Reachable(Direct, s) && MutuallyBlocked(s)
    ensures |s.handled| < |s.arrived| - 1 && !SBOMOutcome(s.arrived[|s.handled|]).SendsNothing?
  {
    NothingIsLost(Direct, s);
    assert s.arrived == s.handled + [s.handler.event, s.loop.event];
  }

  lemma BlocksAfter(es: seq<Incoming>, i: nat) returns (s: State)
    requires i < |es| - 1 && !SBOMOutcome(es[i]).SendsNothing?
    ensures Reachable(Direct, s) && s.arrived == es[..i + 2] && MutuallyBlocked(s)
  {
    var s0 := RestAfter(es[..i]);
    var acts := [Arrive(es[i]), Forward, Decide, Arrive(es[i + 1])];
    TwoEventsBlockSBOMWatch(s0, es[i], es[i + 1]);
    ReachableExec(Direct, s0, acts);
    s := Exec(Direct, s0, acts).value;
    assert es[..i + 2] == es[..i] + [es[i], es[i + 1]];
  }

  /** The SBOM loop can block on a sequence of events exactly when some event other than the last makes the handler
      answer with a command or an error. */
  lemma EventsBlockSBOMWatchExactly(es: seq<Incoming>)
    ensures (exists s :: Reachable(Direct, s) && s.arrived <= es && MutuallyBlocked(s))
            <==> exists i :: 0 <= i < |es| - 1 && !SBOMOutcome(es[i]).SendsNothing?
  {
    if s :| Reachable(Direct, s) && s.arrived <= es && MutuallyBlocked(s) {
      BlockedOnAnEarlierAnswer(s);
      assert s.arrived[|s.handled|] == es[|s.handled|];
    }
    if i :| 0 <= i < |es| - 1 && !SBOMOutcome(es[i]).SendsNothing? {
      var s := BlocksAfter(es, i);
    }
  }
}
