/** The delayed command-response pool of mainhandler/handlecommandresponse.go: inserters, a bounded channel of
    timers, workers that wait for them, a bounded channel of due responses, and one handler that may insert
    again into its own input. Each goroutine is a program counter, each channel operation one step. */
module ResponsePool {
  import opened Wrappers

  /** Both channels are buffered and there is at least one worker. */
  datatype Config = Config(timerCapacity: nat, workers: nat, responseCapacity: nat) {
    predicate Valid() {
      timerCapacity >= 1 && workers >= 1 && responseCapacity >= 1
    }
  }

  const OPERATOR := Config(10, 10, 100)

  /** One insertion of a command response: its timer starts at `insertedAt` and fires `delay` later. */
  datatype Response = Response(id: nat, insertedAt: int, delay: int) {
    function Due(): int { insertedAt + delay }
  }

  datatype Worker = Idle | Waiting(response: Response) | Sending(response: Response)

  datatype Handler = Receiving | Handling(response: Response, since: int) | Inserting(response: Response)

  /** One completed callback: Some(delay) asks for the response to be handled again. */
  datatype Call = Call(response: Response, startedAt: int, returnedAt: int, again: Option<int>)

  datatype State = State(
    now: int,
    inserters: seq<Response>,
    timers: seq<Response>,
    workers: seq<Worker>,
    responses: seq<Response>,
    handler: Handler,
    nextId: nat,
    finished: set<nat>,
    calls: seq<Call>)

  datatype Action =
    | Tick(d: nat)
    | Begin(delay: int)
    | Insert(i: nat)
    | Take(w: nat)
    | Fire(w: nat)
    | Send(w: nat)
    | Receive
    | Return(again: Option<int>)
    | Reinsert

  predicate Enabled(cfg: Config, s: State, a: Action) {
    match a
    case Tick(_) => true
    case Begin(_) => true
    case Insert(i) => i < |s.inserters| && |s.timers| < cfg.timerCapacity
    case Take(w) => w < |s.workers| && s.workers[w].Idle? && s.timers != []
    case Fire(w) => w < |s.workers| && s.workers[w].Waiting? && s.workers[w].response.Due() <= s.now
    case Send(w) => w < |s.workers| && s.workers[w].Sending? && |s.responses| < cfg.responseCapacity
    case Receive => s.handler.Receiving? && s.responses != []
    case Return(_) => s.handler.Handling?
    case Reinsert => s.handler.Inserting? && |s.timers| < cfg.timerCapacity
  }

  function Step(cfg: Config, s: State, a: Action): State
    requires Enabled(cfg, s, a)
  {
    match a
    case Tick(d) => s.(now := s.now + d)
    case Begin(delay) =>
      s.(inserters := s.inserters + [Response(s.nextId, s.now, delay)], nextId := s.nextId + 1)
    case Insert(i) =>
      s.(inserters := s.inserters[..i] + s.inserters[i + 1..], timers := s.timers + [s.inserters[i]])
    case Take(w) =>
      s.(timers := s.timers[1..], workers := s.workers[w := Waiting(s.timers[0])])
    case Fire(w) =>
      s.(workers := s.workers[w := Sending(s.workers[w].response)])
    case Send(w) =>
      s.(workers := s.workers[w := Idle], responses := s.responses + [s.workers[w].response])
    case Receive =>
      s.(responses := s.responses[1..], handler := Handling(s.responses[0], s.now))
    case Return(again) =>
      var r := s.handler.response;
      var t := s.(calls := s.calls + [Call(r, s.handler.since, s.now, again)]);
      (match again
       case None => t.(handler := Receiving, finished := s.finished + {r.id})
       case Some(delay) => t.(handler := Inserting(Response(r.id, s.now, delay))))
    case Reinsert =>
      s.(timers := s.timers + [s.handler.response], handler := Receiving)
  }

  ghost function Initial(cfg: Config): State {
    State(0, [], [], seq(cfg.workers, i => Idle), [], Receiving, 0, {}, [])
  }

  /** The state after a run of actions from the start, if each was enabled in turn. */
  ghost function Exec(cfg: Config, acts: seq<Action>): Option<State> {
    if acts == [] then Some(Initial(cfg))
    else
      match Exec(cfg, acts[..|acts| - 1])
      case None => None
      case Some(s) =>
        if Enabled(cfg, s, acts[|acts| - 1]) then Some(Step(cfg, s, acts[|acts| - 1])) else None
  }

  ghost predicate Reachable(cfg: Config, s: State) {
    exists acts :: Exec(cfg, acts) == Some(s)
  }

  lemma ReachableStep(cfg: Config, s: State, a: Action)
    requires Reachable(cfg, s) && Enabled(cfg, s, a)
    ensures Reachable(cfg, Step(cfg, s, a))
  {
    var acts :| Exec(cfg, acts) == Some(s);
    assert (acts + [a])[..|acts|] == acts;
    assert Exec(cfg, acts + [a]) == Some(Step(cfg, s, a));
  }

  // ---------------------------------------------------------------- responses in flight, and deadlock

  ghost function Busy(ws: seq<Worker>): (n: nat)
    ensures n <= |ws|
  {
    if ws == [] then 0 else Busy(ws[..|ws| - 1]) + if ws[|ws| - 1].Idle? then 0 else 1
  }

  lemma {:induction false} BusyExtremes(ws: seq<Worker>)
    ensures Busy(ws) == 0 <==> forall w | 0 <= w < |ws| :: ws[w].Idle?
    ensures Busy(ws) == |ws| <==> forall w | 0 <= w < |ws| :: !ws[w].Idle?
  {
    if ws != [] {
      BusyExtremes(ws[..|ws| - 1]);
      assert forall w | 0 <= w < |ws| - 1 :: ws[w] == ws[..|ws| - 1][w];
    }
  }

  ghost function InFlight(s: State): nat {
    |s.timers| + Busy(s.workers) + |s.responses| + if s.handler.Receiving? then 0 else 1
  }

  ghost predicate WithinCapacity(cfg: Config, s: State) {
    && |s.timers| <= cfg.timerCapacity
    && |s.workers| == cfg.workers
    && |s.responses| <= cfg.responseCapacity
  }

  /** What comes from outside: time passes, and new responses are inserted. */
  predicate External(a: Action) {
    a.Tick? || a.Begin? || a.Insert?
  }

  /** After some time, a step of the pool itself is enabled. */
  ghost predicate CanProgress(cfg: Config, s: State) {
    exists d: nat, a: Action :: !External(a) && Enabled(cfg, Step(cfg, s, Tick(d)), a)
  }

  /** Every buffer is full, every worker holds a due response, and the handler waits to insert. */
  ghost predicate Jammed(cfg: Config, s: State) {
    && |s.timers| == cfg.timerCapacity && |s.responses| == cfg.responseCapacity
    && (forall w | 0 <= w < |s.workers| :: s.workers[w].Sending?)
    && s.handler.Inserting?
  }

  lemma Progress(cfg: Config, s: State, d: nat, a: Action)
    requires !External(a) && Enabled(cfg, Step(cfg, s, Tick(d)), a)
    ensures CanProgress(cfg, s)
  {
  }

  lemma {:induction false} ReachableWithinCapacity(cfg: Config, acts: seq<Action>)
    requires Exec(cfg, acts).Some?
    ensures WithinCapacity(cfg, Exec(cfg, acts).value)
  {
    if acts != [] {
      ReachableWithinCapacity(cfg, acts[..|acts| - 1]);
    }
  }

  /** With work in flight, a reachable pool can make no more progress exactly when it is jammed. */
  lemma DeadlockExactly(cfg: Config, s: State)
    requires cfg.Valid() && Reachable(cfg, s) && InFlight(s) > 0
    ensures !CanProgress(cfg, s) <==> Jammed(cfg, s)
  {
    var acts :| Exec(cfg, acts) == Some(s);
    ReachableWithinCapacity(cfg, acts);
    BusyExtremes(s.workers);
    if !Jammed(cfg, s) {
      if s.handler.Handling? {
        Progress(cfg, s, 0, Return(None));
      } else if s.handler.Receiving? && s.responses != [] {
        Progress(cfg, s, 0, Receive);
      } else if s.handler.Inserting? && |s.timers| < cfg.timerCapacity {
        Progress(cfg, s, 0, Reinsert);
      } else if w :| 0 <= w < |s.workers| && s.workers[w].Waiting? {
        var wait := s.workers[w].response.Due() - s.now;
        Progress(cfg, s, if wait > 0 then wait else 0, Fire(w));
      } else if w :| 0 <= w < |s.workers| && s.workers[w].Sending? && |s.responses| < cfg.responseCapacity {
        Progress(cfg, s, 0, Send(w));
      } else {
        var w :| 0 <= w < |s.workers| && s.workers[w].Idle?;
        Progress(cfg, s, 0, Take(w));
      }
    }
  }

  /** The deadlock bound: one response more than both channels and all workers can hold. */
  lemma NoDeadlockUpToCapacity(cfg: Config, s: State)
    requires cfg.Valid() && Reachable(cfg, s)
    requires 1 <= InFlight(s) <= cfg.timerCapacity + cfg.workers + cfg.responseCapacity
    ensures CanProgress(cfg, s)
  {
    DeadlockExactly(cfg, s);
    BusyExtremes(s.workers);
    var acts :| Exec(cfg, acts) == Some(s);
    ReachableWithinCapacity(cfg, acts);
  }

  lemma OperatorNeverDeadlocksUpTo120(s: State)
    requires Reachable(OPERATOR, s) && 1 <= InFlight(s) <= 120
    ensures CanProgress(OPERATOR, s)
  {
    NoDeadlockUpToCapacity(OPERATOR, s);
  }

  // ---------------------------------------------------------------- the channels

  /** Both channels are first in, first out, and hold no more than their capacity; what leaves one is what goes on. */
  lemma ChannelsAreQueues(cfg: Config, s: State, a: Action)
    requires Enabled(cfg, s, a) && WithinCapacity(cfg, s)
    ensures var s' := Step(cfg, s, a);
            && WithinCapacity(cfg, s')
            && (s.timers <= s'.timers || exists w: nat :: w < cfg.workers && s.timers == [TakenBy(s', w)] + s'.timers)
            && (s.responses <= s'.responses
                || (s'.handler.Handling? && s.responses == [s'.handler.response] + s'.responses))
  {
    if a.Take? {
      assert s.timers == [TakenBy(Step(cfg, s, a), a.w)] + Step(cfg, s, a).timers;
    }
  }

  ghost function TakenBy(s: State, w: nat): Response {
    if w < |s.workers| && s.workers[w].Waiting? then s.workers[w].response else Response(0, 0, 0)
  }

  /** A worker can be done with its timer from the moment it is due, and not before. */
  lemma TimersFireWhenDue(cfg: Config, s: State, w: nat)
    requires w < |s.workers| && s.workers[w].Waiting?
    ensures Enabled(cfg, s, Fire(w)) <==> s.workers[w].response.insertedAt + s.workers[w].response.delay <= s.now
  {
  }

  // ---------------------------------------------------------------- the bound is tight

  /** A callback is running; `a` responses are due, workers below `b` hold one, `c` timers are queued. */
  ghost predicate Loaded(cfg: Config, s: State, a: nat, b: nat, c: nat) {
    && s.handler.Handling? && s.inserters == []
    && |s.responses| == a && |s.timers| == c && |s.workers| == cfg.workers
    && (forall w | 0 <= w < |s.workers| :: if w < b then s.workers[w].Sending? else s.workers[w].Idle?)
  }

  lemma OneMoreTimer(cfg: Config, s: State) returns (s': State)
    requires Reachable(cfg, s) && s.inserters == [] && |s.timers| < cfg.timerCapacity
    ensures Reachable(cfg, s') && s'.timers == s.timers + [Response(s.nextId, s.now, 0)]
    ensures s' == s.(timers := s'.timers, nextId := s.nextId + 1)
  {
    var r := Response(s.nextId, s.now, 0);
    ReachableStep(cfg, s, Begin(0));
    var s1 := s.(inserters := [r], nextId := s.nextId + 1);
    assert Step(cfg, s, Begin(0)) == s1;
    ReachableStep(cfg, s1, Insert(0));
    s' := s1.(inserters := [], timers := s.timers + [r]);
    assert [r][..0] + [r][1..] == [];
    assert Step(cfg, s1, Insert(0)) == s';
  }

  lemma OneMoreSending(cfg: Config, s: State, w: nat) returns (s': State)
    requires cfg.Valid() && Reachable(cfg, s) && s.inserters == [] && s.timers == []
    requires w < |s.workers| && s.workers[w].Idle?
    ensures Reachable(cfg, s') && s'.workers == s.workers[w := Sending(Response(s.nextId, s.now, 0))]
    ensures s' == s.(workers := s'.workers, nextId := s.nextId + 1)
  {
    var s1 := OneMoreTimer(cfg, s);
    ReachableStep(cfg, s1, Take(w));
    var s2 := Step(cfg, s1, Take(w));
    ReachableStep(cfg, s2, Fire(w));
    s' := Step(cfg, s2, Fire(w));
    assert s'.timers == s.timers;
  }

  lemma {:induction false} LoadedReachable(cfg: Config, a: nat, b: nat, c: nat) returns (s: State)
    requires cfg.Valid() && a <= cfg.responseCapacity && b <= cfg.workers && c <= cfg.timerCapacity
    requires (b > 0 ==> a == cfg.responseCapacity) && (c > 0 ==> b == cfg.workers)
    ensures Reachable(cfg, s) && Loaded(cfg, s, a, b, c)
  {
    if c > 0 {
      var s0 := LoadedReachable(cfg, a, b, c - 1);
      s := OneMoreTimer(cfg, s0);
    } else if b > 0 {
      var s0 := LoadedReachable(cfg, a, b - 1, 0);
      s := OneMoreSending(cfg, s0, b - 1);
    } else if a > 0 {
      var s0 := LoadedReachable(cfg, a - 1, 0, 0);
      var s1 := OneMoreSending(cfg, s0, 0);
      ReachableStep(cfg, s1, Send(0));
      s := Step(cfg, s1, Send(0));
    } else {
      var s0 := Initial(cfg);
      assert Exec(cfg, []) == Some(s0);
      var s1 := OneMoreSending(cfg, s0, 0);
      ReachableStep(cfg, s1, Send(0));
      var s2 := Step(cfg, s1, Send(0));
      ReachableStep(cfg, s2, Receive);
      s := Step(cfg, s2, Receive);
    }
  }

  /** With one response more, a deadlock is reachable: the callback asks for rehandling once everything is full. */
  lemma DeadlockReachable(cfg: Config)
    requires cfg.Valid()
    ensures exists s :: Reachable(cfg, s) && Jammed(cfg, s) && !CanProgress(cfg, s)
                        && InFlight(s) == cfg.timerCapacity + cfg.workers + cfg.responseCapacity + 1
  {
    var s0 := LoadedReachable(cfg, cfg.responseCapacity, cfg.workers, cfg.timerCapacity);
    ReachableStep(cfg, s0, Return(Some(0)));
    var s := Step(cfg, s0, Return(Some(0)));
    BusyExtremes(s.workers);
    DeadlockExactly(cfg, s);
  }

  /** The operator's pool can deadlock with 121 responses: 10 timers are queued, 10 workers hold a response, 100
      responses are due, and the handler holds one. */
  lemma OperatorDeadlocksWith121()
    ensures exists s :: Reachable(OPERATOR, s) && Jammed(OPERATOR, s) && !CanProgress(OPERATOR, s) && InFlight(s) == 121
                        && |s.timers| == 10 && |s.workers| == 10 && |s.responses| == 100
  {
    DeadlockReachable(OPERATOR);
    var s :| Reachable(OPERATOR, s) && Jammed(OPERATOR, s) && !CanProgress(OPERATOR, s) && InFlight(s) == 121;
    var acts :| Exec(OPERATOR, acts) == Some(s);
    ReachableWithinCapacity(OPERATOR, acts);
  }

  /** A jam is final: time passes and new inserters queue up, but nothing else ever happens. */
  lemma JammedForever(cfg: Config, s: State, a: Action)
    requires Jammed(cfg, s) && Enabled(cfg, s, a)
    ensures a.Tick? || a.Begin?
    ensures Jammed(cfg, Step(cfg, s, a)) && Step(cfg, s, a).calls == s.calls
  {
  }

  // ---------------------------------------------------------------- everything gets settled

  ghost function WorkerWork(w: Worker): nat {
    match w case Idle => 0 case Waiting(_) => 4 case Sending(_) => 3
  }

  ghost function WorkersWork(ws: seq<Worker>): nat {
    if ws == [] then 0 else WorkersWork(ws[..|ws| - 1]) + WorkerWork(ws[|ws| - 1])
  }

  /** How many steps of the pool are still to come if no callback asks for rehandling. */
  ghost function Work(s: State): nat {
    5 * |s.timers| + WorkersWork(s.workers) + 2 * |s.responses|
    + match s.handler case Receiving => 0 case Handling(_, _) => 1 case Inserting(_) => 6
  }

  lemma {:induction false} WorkersWorkUpdate(ws: seq<Worker>, w: nat, x: Worker)
    requires w < |ws|
    ensures WorkersWork(ws[w := x]) + WorkerWork(ws[w]) == WorkersWork(ws) + WorkerWork(x)
    ensures Busy(ws[w := x]) + (if ws[w].Idle? then 0 else 1) == Busy(ws) + (if x.Idle? then 0 else 1)
  {
    var n := |ws| - 1;
    if w == n {
      assert ws[w := x][..n] == ws[..n];
    } else {
      assert ws[w := x][..n] == ws[..n][w := x];
      WorkersWorkUpdate(ws[..n], w, x);
    }
  }

  lemma {:induction false} WorkersWorkBound(ws: seq<Worker>)
    ensures WorkersWork(ws) <= 6 * Busy(ws)
  {
    if ws != [] {
      WorkersWorkBound(ws[..|ws| - 1]);
    }
  }

  /** A callback that asks for rehandling makes for six more steps; any other step of the pool is one of those to
      come. Nothing but an insertion puts more responses in flight. */
  lemma StepWork(cfg: Config, s: State, a: Action)
    requires Enabled(cfg, s, a) && !a.Insert?
    ensures var s' := Step(cfg, s, a);
            && Work(s') + (if External(a) then 0 else 1) == Work(s) + (if a.Return? && a.again.Some? then 6 else 0)
            && InFlight(s') <= InFlight(s)
  {
    match a
    case Take(w) => WorkersWorkUpdate(s.workers, w, Waiting(s.timers[0]));
    case Fire(w) => WorkersWorkUpdate(s.workers, w, Sending(s.workers[w].response));
    case Send(w) => WorkersWorkUpdate(s.workers, w, Idle);
    case _ =>
  }

  /** How many of the actions satisfy `p`. */
  ghost function HowMany(acts: seq<Action>, p: Action -> bool): nat {
    if acts == [] then 0 else HowMany(acts[..|acts| - 1], p) + if p(acts[|acts| - 1]) then 1 else 0
  }

  ghost function Steps(acts: seq<Action>): nat {
    HowMany(acts, a => !External(a))
  }

  ghost function Rehandlings(acts: seq<Action>): nat {
    HowMany(acts, (a: Action) => a.Return? && a.again.Some?)
  }

  ghost predicate NoInsertions(acts: seq<Action>) {
    forall a | a in acts :: !a.Insert?
  }

  lemma {:induction false} RunWork(cfg: Config, acts: seq<Action>, more: seq<Action>)
    requires Exec(cfg, acts + more).Some? && NoInsertions(more)
    ensures Exec(cfg, acts).Some?
    ensures var s, t := Exec(cfg, acts).value, Exec(cfg, acts + more).value;
            Work(t) + Steps(more) == Work(s) + 6 * Rehandlings(more) && InFlight(t) <= InFlight(s)
  {
    if more == [] {
      assert acts + more == acts;
    } else {
      var before, last := more[..|more| - 1], more[|more| - 1];
      assert (acts + more)[..|acts + more| - 1] == acts + before;
      assert last in more;
      RunWork(cfg, acts, before);
      StepWork(cfg, Exec(cfg, acts + before).value, last);
    }
  }

  /** From any point of a run on, as long as nothing is inserted from outside: under every schedule the steps number
      at most six for each response in flight and each time a callback asks for rehandling. When no step is possible
      any more, now or later, everything is finished or the pool is jammed; and if no more is in flight than the
      channels and workers can hold, everything is finished. */
  lemma EverythingSettles(cfg: Config, acts: seq<Action>, more: seq<Action>)
    requires cfg.Valid() && Exec(cfg, acts + more).Some? && NoInsertions(more)
    ensures Exec(cfg, acts).Some?
    ensures var s, t := Exec(cfg, acts).value, Exec(cfg, acts + more).value;
            && Steps(more) <= 6 * InFlight(s) + 6 * Rehandlings(more)
            && (!CanProgress(cfg, t) ==> InFlight(t) == 0 || Jammed(cfg, t))
            && (!CanProgress(cfg, t) && InFlight(s) <= cfg.timerCapacity + cfg.workers + cfg.responseCapacity
                ==> InFlight(t) == 0)
  {
    RunWork(cfg, acts, more);
    var s, t := Exec(cfg, acts).value, Exec(cfg, acts + more).value;
    WorkersWorkBound(s.workers);
    assert Reachable(cfg, t);
    if InFlight(t) > 0 {
      DeadlockExactly(cfg, t);
      if InFlight(s) <= cfg.timerCapacity + cfg.workers + cfg.responseCapacity {
        NoDeadlockUpToCapacity(cfg, t);
      }
    }
  }

  // ---------------------------------------------------------------- conservation and delays

  ghost function Bit(b: bool): nat {
    if b then 1 else 0
  }

  /** How many of the responses carry an id. */
  ghost function Count(rs: seq<Response>, id: nat): nat {
    if rs == [] then 0 else Count(rs[..|rs| - 1], id) + Bit(rs[|rs| - 1].id == id)
  }

  ghost predicate Holds(w: Worker, id: nat) {
    !w.Idle? && w.response.id == id
  }

  ghost function CountHeld(ws: seq<Worker>, id: nat): nat {
    if ws == [] then 0 else CountHeld(ws[..|ws| - 1], id) + Bit(Holds(ws[|ws| - 1], id))
  }

  /** How often an id occurs over all the places before the handler. */
  ghost function Queued(s: State, id: nat): nat {
    Count(s.inserters, id) + Count(s.timers, id) + CountHeld(s.workers, id) + Count(s.responses, id)
  }

  ghost predicate InHandler(h: Handler, id: nat) {
    !h.Receiving? && h.response.id == id
  }

  lemma CountAppend(rs: seq<Response>, r: Response, id: nat)
    ensures Count(rs + [r], id) == Count(rs, id) + Bit(r.id == id)
  {
    assert (rs + [r])[..|rs|] == rs;
  }

  lemma {:induction false} CountRemove(rs: seq<Response>, i: nat, id: nat)
    requires i < |rs|
    ensures Count(rs, id) == Count(rs[..i] + rs[i + 1..], id) + Bit(rs[i].id == id)
  {
    var n := |rs| - 1;
    if i == n {
      assert rs[..i] + rs[i + 1..] == rs[..n];
    } else {
      CountRemove(rs[..n], i, id);
      assert rs[..i] + rs[i + 1..] == (rs[..n][..i] + rs[..n][i + 1..]) + [rs[n]];
      CountAppend(rs[..n][..i] + rs[..n][i + 1..], rs[n], id);
    }
  }

  lemma CountFirst(rs: seq<Response>, id: nat)
    requires rs != []
    ensures Count(rs, id) == Count(rs[1..], id) + Bit(rs[0].id == id)
  {
    CountRemove(rs, 0, id);
    assert rs[..0] + rs[0 + 1..] == rs[1..];
  }

  lemma {:induction false} CountHeldUpdate(ws: seq<Worker>, w: nat, x: Worker, id: nat)
    requires w < |ws|
    ensures CountHeld(ws[w := x], id) + Bit(Holds(ws[w], id)) == CountHeld(ws, id) + Bit(Holds(x, id))
  {
    var n := |ws| - 1;
    if w == n {
      assert ws[w := x][..n] == ws[..n];
    } else {
      assert ws[w := x][..n] == ws[..n][w := x];
      CountHeldUpdate(ws[..n], w, x, id);
    }
  }

  /** A step that only moves a response from one place to another neither loses nor duplicates any. */
  lemma MovesConserve(cfg: Config, s: State, a: Action, id: nat)
    requires Enabled(cfg, s, a) && !a.Begin? && !a.Return?
    ensures var s' := Step(cfg, s, a);
            Queued(s', id) + Bit(InHandler(s'.handler, id)) == Queued(s, id) + Bit(InHandler(s.handler, id))
  {
    match a
    case Tick(_) =>
    case Insert(i) =>
      CountRemove(s.inserters, i, id);
      CountAppend(s.timers, s.inserters[i], id);
    case Take(w) =>
      CountFirst(s.timers, id);
      CountHeldUpdate(s.workers, w, Waiting(s.timers[0]), id);
    case Fire(w) =>
      CountHeldUpdate(s.workers, w, Sending(s.workers[w].response), id);
    case Send(w) =>
      CountHeldUpdate(s.workers, w, Idle, id);
      CountAppend(s.responses, s.workers[w].response, id);
    case Receive =>
      CountFirst(s.responses, id);
    case Reinsert =>
      CountAppend(s.timers, s.handler.response, id);
  }

  /** Every id inserted so far is in exactly one of the places, once, or else finished; no other id is anywhere. */
  ghost predicate Conserved(s: State) {
    forall id: nat :: Queued(s, id) + Bit(InHandler(s.handler, id)) + Bit(id in s.finished) == Bit(id < s.nextId)
  }

  lemma {:induction false} ResponsesConserved(cfg: Config, acts: seq<Action>)
    requires Exec(cfg, acts).Some?
    ensures Conserved(Exec(cfg, acts).value)
  {
    if acts == [] {
      forall id: nat
        ensures CountHeld(Initial(cfg).workers, id) == 0
      {
        NothingHeld(Initial(cfg).workers, id);
      }
    } else {
      ResponsesConserved(cfg, acts[..|acts| - 1]);
      var s, a := Exec(cfg, acts[..|acts| - 1]).value, acts[|acts| - 1];
      var s' := Step(cfg, s, a);
      forall id: nat
        ensures Queued(s', id) + Bit(InHandler(s'.handler, id)) + Bit(id in s'.finished) == Bit(id < s'.nextId)
      {
        assert Queued(s, id) + Bit(InHandler(s.handler, id)) + Bit(id in s.finished) == Bit(id < s.nextId);
        if a.Begin? {
          CountAppend(s.inserters, Response(s.nextId, s.now, a.delay), id);
        } else if !a.Return? {
          MovesConserve(cfg, s, a, id);
        }
      }
    }
  }

  lemma {:induction false} NothingHeld(ws: seq<Worker>, id: nat)
    requires forall w | 0 <= w < |ws| :: ws[w].Idle?
    ensures CountHeld(ws, id) == 0
  {
    if ws != [] {
      NothingHeld(ws[..|ws| - 1], id);
    }
  }

  /** `r` is in one of the places before the handler. */
  ghost predicate Waits(s: State, r: Response) {
    r in s.inserters || r in s.timers || r in s.responses
    || exists w :: 0 <= w < |s.workers| && !s.workers[w].Idle? && s.workers[w].response == r
  }

  lemma {:induction false} CountPositive(rs: seq<Response>, r: Response)
    requires r in rs
    ensures Count(rs, r.id) > 0
  {
    if r != rs[|rs| - 1] {
      CountPositive(rs[..|rs| - 1], r);
    }
  }

  lemma {:induction false} CountHeldPositive(ws: seq<Worker>, w: nat, id: nat)
    requires w < |ws| && Holds(ws[w], id)
    ensures CountHeld(ws, id) > 0
  {
    if w < |ws| - 1 {
      CountHeldPositive(ws[..|ws| - 1], w, id);
    }
  }

  lemma WaitsIsQueued(s: State, r: Response)
    requires Waits(s, r)
    ensures Queued(s, r.id) > 0
  {
    if r in s.inserters {
      CountPositive(s.inserters, r);
    } else if r in s.timers {
      CountPositive(s.timers, r);
    } else if r in s.responses {
      CountPositive(s.responses, r);
    } else {
      var w :| 0 <= w < |s.workers| && !s.workers[w].Idle? && s.workers[w].response == r;
      CountHeldPositive(s.workers, w, r.id);
    }
  }

  function IdOf(c: Call): nat {
    c.response.id
  }

  ghost function LastCall(calls: seq<Call>, id: nat): Option<Call> {
    LastOf(calls, IdOf, id)
  }

  /** `r` is the first insertion of its id, or the one that the id's last callback asked for. */
  ghost predicate AskedFor(calls: seq<Call>, r: Response) {
    match LastCall(calls, r.id)
    case None => true
    case Some(last) => last.again == Some(r.delay) && r.insertedAt == last.returnedAt
  }

  /** Each call happened no earlier than the delay of its response allows, and the response was asked for. */
  ghost predicate CallsInTime(calls: seq<Call>) {
    forall i | 0 <= i < |calls| ::
      && calls[i].response.Due() <= calls[i].startedAt <= calls[i].returnedAt
      && AskedFor(calls[..i], calls[i].response)
  }

  ghost predicate Timely(s: State) {
    && (forall r | Waits(s, r) :: AskedFor(s.calls, r))
    && (forall r | r in s.responses :: r.Due() <= s.now)
    && (forall w | 0 <= w < |s.workers| && s.workers[w].Sending? :: s.workers[w].response.Due() <= s.now)
    && (!s.handler.Receiving? ==> AskedFor(s.calls, s.handler.response))
    && (s.handler.Handling? ==> s.handler.response.Due() <= s.handler.since <= s.now)
    && (forall id: nat :: id in s.finished <==> LastCall(s.calls, id).Some? && LastCall(s.calls, id).value.again.None?)
    && (forall c | c in s.calls :: c.response.id < s.nextId)
    && CallsInTime(s.calls)
  }

  /** What the callbacks see of a run: nothing is handled before its delay has passed, every handling after the
      first was asked for by the one before, and a response is finished exactly when its last callback did not
      ask for another. */
  lemma {:induction false} HandledInTime(cfg: Config, acts: seq<Action>)
    requires Exec(cfg, acts).Some?
    ensures Timely(Exec(cfg, acts).value)
  {
    if acts != [] {
      HandledInTime(cfg, acts[..|acts| - 1]);
      ResponsesConserved(cfg, acts[..|acts| - 1]);
      var s, a := Exec(cfg, acts[..|acts| - 1]).value, acts[|acts| - 1];
      if a.Return? {
        ReturnTimely(cfg, s, a.again);
      } else if a.Begin? {
        BeginTimely(cfg, s, a.delay);
      } else {
        MoveTimely(cfg, s, a);
      }
    }
  }

  lemma MoveTimely(cfg: Config, s: State, a: Action)
    requires Enabled(cfg, s, a) && !a.Begin? && !a.Return? && Timely(s)
    ensures Timely(Step(cfg, s, a))
  {
    var s' := Step(cfg, s, a);
    forall r | Waits(s', r)
      ensures Waits(s, r) || (s.handler.Inserting? && r == s.handler.response)
    {
      if w :| 0 <= w < |s'.workers| && !s'.workers[w].Idle? && s'.workers[w].response == r {
        assert s'.workers[w] == s.workers[w] || a.w == w;
      }
    }
    if a.Receive? {
      assert Waits(s, s.responses[0]);
    }
  }

  lemma BeginTimely(cfg: Config, s: State, delay: int)
    requires Timely(s) && Conserved(s)
    ensures Timely(Step(cfg, s, Begin(delay)))
  {
    var s' := Step(cfg, s, Begin(delay));
    if LastCall(s.calls, s.nextId).Some? {
      LastOfIsItem(s.calls, IdOf, s.nextId);
    }
    forall r | Waits(s', r)
      ensures Waits(s, r) || r == Response(s.nextId, s.now, delay)
    {
    }
  }

  /** The id that the handler holds is nowhere else, and not finished. */
  lemma HeldOnce(s: State)
    requires !s.handler.Receiving? && Conserved(s)
    ensures s.handler.response.id !in s.finished && s.handler.response.id < s.nextId
    ensures forall r | Waits(s, r) :: r.id != s.handler.response.id
  {
    var id := s.handler.response.id;
    assert Queued(s, id) + Bit(InHandler(s.handler, id)) + Bit(id in s.finished) == Bit(id < s.nextId);
    forall r | Waits(s, r)
      ensures r.id != id
    {
      WaitsIsQueued(s, r);
    }
  }

  /** A call says nothing about the responses with other ids. */
  lemma NewCall(calls: seq<Call>, c: Call)
    ensures forall r: Response | r.id != c.response.id :: AskedFor(calls + [c], r) <==> AskedFor(calls, r)
    ensures forall id: nat :: LastCall(calls + [c], id) == if id == c.response.id then Some(c) else LastCall(calls, id)
  {
    forall id: nat
      ensures LastCall(calls + [c], id) == if id == c.response.id then Some(c) else LastCall(calls, id)
    {
      LastOfAppend(calls, c, IdOf, id);
    }
  }

  lemma NewCallInTime(calls: seq<Call>, c: Call)
    requires CallsInTime(calls) && AskedFor(calls, c.response)
    requires c.response.Due() <= c.startedAt <= c.returnedAt
    ensures CallsInTime(calls + [c])
  {
    forall i | 0 <= i < |calls + [c]|
      ensures (calls + [c])[..i] == calls[..i]
    {
    }
    assert calls[..|calls|] == calls;
  }

  lemma ReturnTimely(cfg: Config, s: State, again: Option<int>)
    requires Enabled(cfg, s, Return(again)) && Timely(s) && Conserved(s)
    ensures Timely(Step(cfg, s, Return(again)))
  {
    var s' := Step(cfg, s, Return(again));
    var c := Call(s.handler.response, s.handler.since, s.now, again);
    HeldOnce(s);
    NewCall(s.calls, c);
    NewCallInTime(s.calls, c);
    forall r | Waits(s', r)
      ensures AskedFor(s'.calls, r)
    {
      assert Waits(s, r);
    }
  }

  lemma {:induction false} LastCallBefore(calls: seq<Call>, i: nat, j: nat)
    requires i < j <= |calls|
    requires forall k | i < k < j :: calls[k].response.id != calls[i].response.id
    ensures LastCall(calls[..j], calls[i].response.id) == Some(calls[i])
  {
    assert calls[..j][..j - 1] == calls[..j - 1];
    if i < j - 1 {
      LastCallBefore(calls, i, j - 1);
    }
  }

  /** Between two successive callbacks of one response lies at least the delay the first one asked for. */
  lemma RehandledAfterItsDelay(cfg: Config, acts: seq<Action>, i: nat, j: nat)
    requires Exec(cfg, acts).Some?
    requires i < j < |Exec(cfg, acts).value.calls|
    requires var calls := Exec(cfg, acts).value.calls;
             && calls[i].response.id == calls[j].response.id
             && forall k | i < k < j :: calls[k].response.id != calls[i].response.id
    ensures var calls := Exec(cfg, acts).value.calls;
            && calls[i].again.Some?
            && calls[j].startedAt >= calls[i].returnedAt + calls[i].again.value
            && calls[j].response == Response(calls[i].response.id, calls[i].returnedAt, calls[i].again.value)
  {
    var calls := Exec(cfg, acts).value.calls;
    HandledInTime(cfg, acts);
    LastCallBefore(calls, i, j);
    assert AskedFor(calls[..j], calls[j].response);
  }

  // ---------------------------------------------------------------- the kubescape callback

  /** What polling a scan's status can yield: no reply, an unreadable one, "still busy", or any other. */
  datatype StatusReply = RequestFailed | Unreadable | StillBusy | Answered

  const WAIT_TIME_FOR_KUBESCAPE_SCAN_RESPONSE := 40

  function HandleKubescapeResponse(reply: StatusReply): Option<int> {
    if reply.StillBusy? then Some(WAIT_TIME_FOR_KUBESCAPE_SCAN_RESPONSE) else None
  }

  /** Only a busy reply asks for another poll, in 40 seconds. */
  lemma RepliesExactly(reply: StatusReply)
    ensures HandleKubescapeResponse(reply) == match reply
                                              case RequestFailed => None
                                              case Unreadable => None
                                              case StillBusy => Some(40)
                                              case Answered => None
  {
  }

  /** A scan is polled again only while it is busy, and then its next poll is due after 40 seconds exactly. */
  lemma KubescapePolledWhileBusy(cfg: Config, acts: seq<Action>, i: nat, j: nat, reply: StatusReply)
    requires Exec(cfg, acts).Some?
    requires i < j < |Exec(cfg, acts).value.calls|
    requires var calls := Exec(cfg, acts).value.calls;
             && calls[i].response.id == calls[j].response.id
             && (forall k | i < k < j :: calls[k].response.id != calls[i].response.id)
             && calls[i].again == HandleKubescapeResponse(reply)
    ensures reply.StillBusy?
    ensures Exec(cfg, acts).value.calls[j].startedAt >= Exec(cfg, acts).value.calls[i].returnedAt + 40
    ensures Exec(cfg, acts).value.calls[j].response.Due() == Exec(cfg, acts).value.calls[i].returnedAt + 40
  {
    RehandledAfterItsDelay(cfg, acts, i, j);
  }
}
