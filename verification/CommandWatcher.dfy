/** The operator-command watch of watcher/commandswatcher.go: commands that come out of the cooldown queue are
    forwarded to every registered receiver. */
module CommandWatcher {
  import opened Wrappers
  import opened Watch
  import opened CooldownQueue

  /** Thirty minutes, in seconds. */
  const MIN_OPERATOR_COMMAND_AGE := 1800

  /** The object converts to a command that is recent enough and not completed. */
  predicate Eligible(obj: Object, now: int) {
    && obj.command.Some?
    && obj.command.value.createdAt >= now - MIN_OPERATOR_COMMAND_AGE
    && !obj.command.value.completed
  }

  predicate Forwards(e: Event, now: int) {
    e.eventType.Added? && Eligible(e.obj, now)
  }

  /** The commands forwarded out of a sequence of events, each with the time it is handled. */
  ghost function Forwarded(events: seq<(Event, int)>): seq<OperatorCommand> {
    if events == [] then []
    else
      var last := events[|events| - 1];
      Forwarded(events[..|events| - 1]) + if Forwards(last.0, last.1) then [last.0.obj.command.value] else []
  }

  class CommandWatchHandler {
    var commandReceivers: set<nat>
    /** Everything sent on each receiver's channel. */
    var inbox: map<nat, seq<OperatorCommand>>

    ghost predicate Valid()
      reads this
    {
      commandReceivers <= inbox.Keys
    }

    constructor ()
      ensures Valid() && commandReceivers == {}
    {
      commandReceivers, inbox := {}, map[];
    }

    method RegisterForCommands(receiver: nat)
      requires Valid()
      modifies this
      ensures Valid() && commandReceivers == old(commandReceivers) + {receiver}
      ensures inbox == if receiver in old(inbox) then old(inbox) else old(inbox)[receiver := []]
    {
      commandReceivers := commandReceivers + {receiver};
      if receiver !in inbox {
        inbox := inbox[receiver := []];
      }
    }

    /** Sends an eligible command once to every receiver, and nothing otherwise. */
    method AddHandler(obj: Object, now: int)
      requires Valid()
      modifies this`inbox
      ensures Valid() && inbox.Keys == old(inbox).Keys
      ensures forall r | r in inbox ::
                inbox[r] == old(inbox)[r] + if r in commandReceivers && Eligible(obj, now) then [obj.command.value] else []
    {
      if obj.command.None? {
        return;
      }
      var cmd := obj.command.value;
      if cmd.createdAt < now - MIN_OPERATOR_COMMAND_AGE {
        return;
      }
      if cmd.completed {
        return;
      }
      var remaining := commandReceivers;
      while remaining != {}
        invariant remaining <= commandReceivers && Valid() && inbox.Keys == old(inbox).Keys
        invariant forall r | r in inbox ::
                    inbox[r] == old(inbox)[r] + if r in commandReceivers - remaining then [cmd] else []
        decreases |remaining|
      {
        var receiver :| receiver in remaining;
        inbox := inbox[receiver := inbox[receiver] + [cmd]];
        remaining := remaining - {receiver};
      }
    }

    /** Handles what the event queue delivers, only additions mattering. */
    method CommandWatch(events: seq<(Event, int)>)
      requires Valid()
      modifies this`inbox
      ensures Valid() && inbox.Keys == old(inbox).Keys
      ensures forall r | r in inbox ::
                inbox[r] == old(inbox)[r] + if r in commandReceivers then Forwarded(events) else []
    {
      for i := 0 to |events|
        invariant Valid() && inbox.Keys == old(inbox).Keys
        invariant forall r | r in inbox ::
                    inbox[r] == old(inbox)[r] + if r in commandReceivers then Forwarded(events[..i]) else []
      {
        assert events[..i + 1][..i] == events[..i];
        if events[i].0.eventType.Added? {
          AddHandler(events[i].0.obj, events[i].1);
        }
      }
      assert events[..|events|] == events;
    }
  }

  // ---------------------------------------------------------------- cooldown windows

  /** The enqueue at `q` is in the cooldown window that the emission at `p` ends: same key, and no emission of
      the key since. */
  ghost predicate InWindow(log: seq<Entry>, q: int, p: int) {
    && 0 <= q < p < |log| && log[q].Enqueued? && log[p].Emitted? && log[q].key == log[p].key
    && forall r | q < r < p && log[r].key == log[p].key :: log[r].Enqueued?
  }

  ghost predicate EndsWindow(log: seq<Entry>, q: int, p: int) {
    InWindow(log, q, p) && forall r | InWindow(log, r, p) :: r <= q
  }

  /** The emission at `p` as the handler sees it: which one in the row of emissions. */
  ghost function EmissionNumber(log: seq<Entry>, p: nat): nat
    requires p <= |log|
  {
    |Emissions(log[..p])|
  }

  ghost function Handled(events: seq<Event>, times: seq<int>): seq<(Event, int)>
    requires |events| == |times|
  {
    seq(|events|, i requires 0 <= i < |events| => (events[i], times[i]))
  }

  /** The window with last enqueue `q` and emission `p` is one whose command must be forwarded: its last event is
      an addition of a command that is not completed and, when the emission is handled, at most thirty minutes old. */
  ghost predicate Owed(log: seq<Entry>, times: seq<int>, q: nat, p: nat)
    requires |times| == |Emissions(log)|
  {
    && EndsWindow(log, q, p) && log[q].event.eventType.Added?
    && EmissionNumber(log, p) < |times| && log[q].event.obj.command.Some?
    && !log[q].event.obj.command.value.completed
    && times[EmissionNumber(log, p)] - log[q].event.obj.command.value.createdAt <= 30 * 60
  }

  lemma WindowOfEmission(cooldown: int, log: seq<Entry>, p: nat) returns (q: nat)
    requires Cooled(cooldown, log) && p < |log| && log[p].Emitted?
    ensures EndsWindow(log, q, p) && log[q].event == log[p].event
  {
    EmissionsAreCooled(cooldown, log, p);
    q :| 0 <= q < p && Delivers(cooldown, log, q, p);
  }

  lemma OwedPrefix(log: seq<Entry>, times: seq<int>, q: nat, p: nat)
    requires log != [] && |times| == |Emissions(log)| && p < |log| - 1
    ensures var before := log[..|log| - 1];
            Owed(log, times, q, p) <==> Owed(before, times[..|Emissions(before)|], q, p)
  {
    var before := log[..|log| - 1];
    assert forall r | 0 <= r < |before| :: before[r] == log[r];
    assert forall r :: InWindow(log, r, p) <==> InWindow(before, r, p);
    assert before[..p] == log[..p];
    if q < p {
      EmissionNumberBelow(before, p);
    }
  }

  lemma {:induction false} EmissionNumberBelow(log: seq<Entry>, p: nat)
    requires p < |log|
    ensures EmissionNumber(log, p) <= |Emissions(log)|
    ensures log[p].Emitted? ==> EmissionNumber(log, p) < |Emissions(log)|
  {
    var n := |log| - 1;
    if p < n {
      EmissionNumberBelow(log[..n], p);
      assert log[..n][..p] == log[..p];
    }
  }

  ghost function AllForwarded(log: seq<Entry>, times: seq<int>): seq<OperatorCommand>
    requires |times| == |Emissions(log)|
  {
    Forwarded(Handled(Emissions(log), times))
  }

  /** What the last entry of the log adds to the forwarded commands. */
  lemma ForwardedStep(log: seq<Entry>, times: seq<int>)
    requires log != [] && |times| == |Emissions(log)|
    ensures var before, last := log[..|log| - 1], log[|log| - 1];
            var m := |Emissions(before)|;
            && m <= |times| && (last.Emitted? ==> m < |times|)
            && AllForwarded(log, times) == AllForwarded(before, times[..m])
               + if last.Emitted? && Forwards(last.event, times[m]) then [last.event.obj.command.value] else []
  {
    var before, last := log[..|log| - 1], log[|log| - 1];
    var m := |Emissions(before)|;
    if last.Emitted? {
      var handled := Handled(Emissions(log), times);
      assert handled[..|handled| - 1] == Handled(Emissions(before), times[..m]);
    } else {
      assert Emissions(log) == Emissions(before) && times[..m] == times;
    }
  }

  /** What the command watch forwards out of everything the queue emits: for every cooldown window whose last event
      is an addition of an eligible command, that command, once; for every other window, nothing, whatever
      additions it contains. `f` lists those windows, in the order of their emissions. */
  lemma {:induction false} ForwardsOwedWindows(cooldown: int, log: seq<Entry>, times: seq<int>) returns (f: seq<(nat, nat)>)
    requires Cooled(cooldown, log) && |times| == |Emissions(log)|
    ensures |f| == |AllForwarded(log, times)|
    ensures forall i | 0 <= i < |f| ::
              Owed(log, times, f[i].0, f[i].1)
              && log[f[i].0].event.obj.command == Some(AllForwarded(log, times)[i])
    ensures forall i, j | 0 <= i < j < |f| :: f[i].1 < f[j].1
    ensures forall q: nat, p: nat | Owed(log, times, q, p) :: (q, p) in f
  {
    f := [];
    if log != [] {
      var n := |log| - 1;
      var before, m := log[..n], |Emissions(log[..n])|;
      ForwardedStep(log, times);
      var g := ForwardsOwedWindows(cooldown, before, times[..m]);
      forall q: nat, p: nat | p < n
        ensures Owed(log, times, q, p) <==> Owed(before, times[..m], q, p)
      {
        OwedPrefix(log, times, q, p);
      }
      f := g;
      if log[n].Emitted? {
        var q := WindowOfEmission(cooldown, log, n);
        assert forall r: nat | EndsWindow(log, r, n) :: r == q;
        assert Owed(log, times, q, n) <==> Forwards(log[n].event, times[m]);
        if Forwards(log[n].event, times[m]) {
          f := g + [(q, n)];
        }
      }
      forall q: nat, p: nat | Owed(log, times, q, p)
        ensures (q, p) in f
      {
        assert p < n ==> (q, p) in g;
      }
    }
  }

  /** `f` lists the cooldown windows that have to be forwarded, by last enqueue and emission, in the order of their
      emissions, and `commands` are the commands of these windows. */
  ghost predicate CommandsOfOwedWindows(log: seq<Entry>, times: seq<int>, f: seq<(nat, nat)>, commands: seq<OperatorCommand>)
    requires |times| == |Emissions(log)|
  {
    && |f| == |commands|
    && (forall i | 0 <= i < |f| :: Owed(log, times, f[i].0, f[i].1) && log[f[i].0].event.obj.command == Some(commands[i]))
    && (forall i, j | 0 <= i < j < |f| :: f[i].1 < f[j].1)
    && (forall q: nat, p: nat | Owed(log, times, q, p) :: (q, p) in f)
  }

  /** The watch over a queue: all that the queue emitted is handled, at the given times. What this adds to the inbox
      of every registered receiver are the commands of exactly the owed cooldown windows; no one else gets any. */
  method WatchQueue(queue: Queue, handler: CommandWatchHandler, times: seq<int>) returns (ghost f: seq<(nat, nat)>)
    requires queue.Valid() && handler.Valid() && |times| == |queue.received|
    modifies handler`inbox
    ensures handler.Valid() && handler.inbox.Keys == old(handler.inbox).Keys
    ensures forall r | r in handler.inbox && r !in handler.commandReceivers :: handler.inbox[r] == old(handler.inbox)[r]
    ensures forall r | r in handler.commandReceivers ::
              && old(handler.inbox)[r] <= handler.inbox[r]
              && CommandsOfOwedWindows(queue.log, times, f, handler.inbox[r][|old(handler.inbox)[r]|..])
  {
    var received := queue.received;
    var events := seq(|times|, i requires 0 <= i < |times| => (received[i], times[i]));
    assert events == Handled(Emissions(queue.log), times);
    handler.CommandWatch(events);
    f := ForwardsOwedWindows(queue.expiration, queue.log, times);
  }
}
