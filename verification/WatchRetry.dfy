/** The resumable watches of watcher/watchretry.go and watcher/commandswatcher.go: a watch is opened from the last
    resource version seen, events are enqueued, and when the channel closes the watch is opened again. */
module WatchRetry {
  import opened Wrappers
  import opened Watch

  /** One change in the server's log. Versions grow strictly; a watch opened at version v delivers the changes
      after v in order, for as long as it pleases. */
  datatype Change = Change(version: nat, namespace: string, event: Event)

  ghost predicate Ordered(log: seq<Change>) {
    forall i, j | 0 <= i < j < |log| :: log[i].version < log[j].version
  }

  /** What a read of the watch channel can yield: the next change; an error, whose status object has a version of
      its own; or the channel turns out closed. */
  datatype ReadResult = NextChange | ErrorEvent(version: nat) | ChannelClosed

  /** A read. Someone may close the event queue before it is asked whether it is closed, or between that and the
      enqueue. */
  datatype Read = Read(result: ReadResult, closesBeforeCheck: bool, closesAfterCheck: bool)

  /** One turn of the retry loop. */
  datatype Session = OpenFails | Opened(feed: seq<Read>)

  datatype Outcome = WatchFailed | WatchClosed | QueueClosed

  /** How many changes of the log a version covers. */
  function Position(log: seq<Change>, version: nat): (p: nat)
    ensures p <= |log|
  {
    if log == [] then 0
    else if log[|log| - 1].version <= version then |log|
    else Position(log[..|log| - 1], version)
  }

  lemma {:induction false} PositionOfChange(log: seq<Change>, i: nat)
    requires Ordered(log) && i < |log|
    ensures Position(log, log[i].version) == i + 1
  {
    if i < |log| - 1 {
      PositionOfChange(log[..|log| - 1], i);
    }
  }

  /** A version covers the changes whose versions are no greater. */
  lemma {:induction false} PositionExactly(log: seq<Change>, version: nat, i: nat)
    requires Ordered(log) && i < |log|
    ensures i < Position(log, version) <==> log[i].version <= version
  {
    if i < |log| - 1 {
      PositionExactly(log[..|log| - 1], version, i);
    }
  }

  /** The events of the changes outside the skipped namespaces. */
  ghost function Kept(changes: seq<Change>, skip: set<string>): seq<Event> {
    if changes == [] then []
    else
      var last := changes[|changes| - 1];
      Kept(changes[..|changes| - 1], skip) + if last.namespace in skip then [] else [last.event]
  }

  lemma {:induction false} KeptAppend(a: seq<Change>, b: seq<Change>, skip: set<string>)
    ensures Kept(a + b, skip) == Kept(a, skip) + Kept(b, skip)
  {
    if b == [] {
      assert a + b == a;
    } else {
      assert (a + b)[..|a + b| - 1] == a + b[..|b| - 1];
      KeptAppend(a, b[..|b| - 1], skip);
    }
  }

  lemma KeptNext(log: seq<Change>, from: nat, p: nat, skip: set<string>)
    requires from <= p < |log|
    ensures Kept(log[from..p + 1], skip) == Kept(log[from..p], skip) + if log[p].namespace in skip then [] else [log[p].event]
  {
    assert log[from..p + 1][..p - from] == log[from..p];
  }

  // ---------------------------------------------------------------- stretches of the log

  /** The changes from position `start` up to, but without, position `end`, read one after the other. */
  datatype Stretch = Stretch(start: nat, end: nat)

  ghost predicate Within(log: seq<Change>, s: Stretch) {
    s.start <= s.end <= |log|
  }

  ghost predicate AllWithin(log: seq<Change>, stretches: seq<Stretch>) {
    forall i | 0 <= i < |stretches| :: Within(log, stretches[i])
  }

  ghost function KeptIn(log: seq<Change>, s: Stretch, skip: set<string>): seq<Event>
    requires Within(log, s)
  {
    Kept(log[s.start..s.end], skip)
  }

  /** The kept events of the stretches, one after the other. */
  ghost function KeptOf(log: seq<Change>, stretches: seq<Stretch>, skip: set<string>): seq<Event>
    requires AllWithin(log, stretches)
  {
    if stretches == [] then []
    else KeptOf(log, stretches[..|stretches| - 1], skip) + KeptIn(log, stretches[|stretches| - 1], skip)
  }

  lemma KeptOfAppend(log: seq<Change>, stretches: seq<Stretch>, s: Stretch, skip: set<string>)
    requires AllWithin(log, stretches) && Within(log, s)
    ensures AllWithin(log, stretches + [s])
    ensures KeptOf(log, stretches + [s], skip) == KeptOf(log, stretches, skip) + KeptIn(log, s, skip)
  {
    assert (stretches + [s])[..|stretches|] == stretches;
  }

  ghost predicate ErrorRead(feed: seq<Read>, version: nat) {
    exists i :: 0 <= i < |feed| && feed[i].result == ErrorEvent(version)
  }

  ghost predicate ErrorOccurs(sessions: seq<Session>, version: nat) {
    exists i :: 0 <= i < |sessions| && sessions[i].Opened? && ErrorRead(sessions[i].feed, version)
  }

  /** The stretch starts where the status object of an error event says. */
  ghost predicate StartsAtError(log: seq<Change>, sessions: seq<Session>, s: Stretch) {
    exists v :: ErrorOccurs(sessions, v) && s.start == Position(log, v)
  }

  /** How many reads at the start of the feed yield a change to an open queue, if `room` changes are left. */
  ghost function Leading(feed: seq<Read>, room: int): (k: nat)
    ensures k <= |feed| && (room >= 0 ==> k <= room)
  {
    if feed == [] || room <= 0 || feed[0] != Read(NextChange, false, false) then 0 else 1 + Leading(feed[1..], room - 1)
  }

  /** How many changes a watch yields before its channel is closed. */
  ghost function ChangesRead(feed: seq<Read>): nat {
    if feed == [] || !feed[0].result.NextChange? then 0 else 1 + ChangesRead(feed[1..])
  }

  ghost predicate Reads(session: Session) {
    session.Opened? && session.feed != []
  }

  ghost predicate AnyReads(sessions: seq<Session>) {
    exists i :: 0 <= i < |sessions| && Reads(sessions[i])
  }

  lemma AnyReadsNext(sessions: seq<Session>, i: nat)
    requires i < |sessions|
    ensures AnyReads(sessions[..i + 1]) <==> AnyReads(sessions[..i]) || Reads(sessions[i])
    ensures Reads(sessions[i]) ==> AnyReads(sessions)
  {
    assert forall k | 0 <= k < i :: sessions[..i + 1][k] == sessions[..i][k];
    assert sessions[..i + 1][i] == sessions[i];
  }

  /** How many changes the watches yield, if there are as many. */
  ghost function Yielded(sessions: seq<Session>): nat {
    if sessions == [] then 0
    else
      var last := sessions[|sessions| - 1];
      Yielded(sessions[..|sessions| - 1]) + if last.Opened? then ChangesRead(last.feed) else 0
  }

  /** The stretch with `k` more changes. */
  ghost function After(s: Stretch, k: nat): Stretch {
    Stretch(s.start, s.end + k)
  }

  /** How a watch on an open queue ends, and whether the queue is closed then. */
  datatype End = End(outcome: Outcome, closed: bool)

  ghost function EndOf(feed: seq<Read>, room: int): End {
    if feed == [] then End(WatchClosed, false)
    else
      var r := feed[0];
      if r.closesBeforeCheck then End(QueueClosed, true)
      else if r.result.ErrorEvent? then End(WatchFailed, false)
      else if r.result.ChannelClosed? || room <= 0 then End(WatchClosed, false)
      else if r.closesAfterCheck then End(if |feed| == 1 then WatchClosed else QueueClosed, true)
      else EndOf(feed[1..], room - 1)
  }

  lemma NextRead(feed: seq<Read>, i: nat, room: int)
    requires i < |feed|
    ensures var r, on := feed[i], feed[i] == Read(NextChange, false, false) && room > 0;
            && Leading(feed[i..], room) == (if on then 1 + Leading(feed[i + 1..], room - 1) else 0)
            && (on ==> EndOf(feed[i..], room) == EndOf(feed[i + 1..], room - 1))
            && (r.closesBeforeCheck ==> EndOf(feed[i..], room) == End(QueueClosed, true))
            && (!on && !r.closesBeforeCheck ==>
                  EndOf(feed[i..], room) ==
                    if r.result.ErrorEvent? then End(WatchFailed, false)
                    else if r.result.ChannelClosed? || room <= 0 then End(WatchClosed, false)
                    else End(if i + 1 == |feed| then WatchClosed else QueueClosed, true))
  {
    assert feed[i..][0] == feed[i] && feed[i..][1..] == feed[i + 1..];
  }

  /** The read after the leading ones decides: a queue found closed gives the watch up; an error fails it; a closed
      channel, as at the end of the log, ends it; a queue closed while a change is passed on is found so by the next
      read. Without such a read the watch is over with the feed. */
  lemma {:induction false} EndExactly(feed: seq<Read>, room: nat)
    ensures var k, end := Leading(feed, room), EndOf(feed, room);
            && (k == |feed| ==> end == End(WatchClosed, false))
            && (k < |feed| && feed[k].closesBeforeCheck ==> end == End(QueueClosed, true))
            && (k < |feed| && !feed[k].closesBeforeCheck ==>
                  match feed[k].result
                  case ErrorEvent(_) => end == End(WatchFailed, false)
                  case ChannelClosed => end == End(WatchClosed, false)
                  case NextChange =>
                    if k == room then end == End(WatchClosed, false)
                    else feed[k].closesAfterCheck && end == End(if k + 1 == |feed| then WatchClosed else QueueClosed, true))
  {
    if feed != [] && room > 0 && feed[0] == Read(NextChange, false, false) {
      EndExactly(feed[1..], room - 1);
    }
  }

  lemma YieldedNext(sessions: seq<Session>, i: nat)
    requires i < |sessions|
    ensures Yielded(sessions[..i + 1])
         == Yielded(sessions[..i]) + if sessions[i].Opened? then ChangesRead(sessions[i].feed) else 0
  {
    assert sessions[..i + 1][..i] == sessions[..i];
  }

  /** No error event is read and nobody closes the queue. */
  ghost predicate Undisturbed(sessions: seq<Session>) {
    forall i, k | 0 <= i < |sessions| && sessions[i].Opened? && 0 <= k < |sessions[i].feed| ::
      var r := sessions[i].feed[k]; !r.result.ErrorEvent? && !r.closesBeforeCheck && !r.closesAfterCheck
  }

  ghost function AtMost(limit: nat, n: nat): nat {
    if n < limit then n else limit
  }

  lemma {:induction false} LeadingUndisturbed(feed: seq<Read>, room: nat)
    requires forall k | 0 <= k < |feed| ::
               !feed[k].result.ErrorEvent? && !feed[k].closesBeforeCheck && !feed[k].closesAfterCheck
    ensures var k := Leading(feed, room);
            && k == AtMost(room, ChangesRead(feed))
            && EndOf(feed, room) == End(WatchClosed, false)
    decreases |feed|
  {
    if feed != [] && room > 0 && feed[0].result.NextChange? {
      assert feed[0] == Read(NextChange, false, false);
      LeadingUndisturbed(feed[1..], room - 1);
    }
  }

  lemma CalmSession(log: seq<Change>, sessions: seq<Session>, i: nat, end: nat)
    requires i < |sessions| && Undisturbed(sessions) && end <= |log|
    ensures var now, next := AtMost(|log|, end + Yielded(sessions[..i])), AtMost(|log|, end + Yielded(sessions[..i + 1]));
            if sessions[i].Opened?
            then EndOf(sessions[i].feed, |log| - now) == End(WatchClosed, false)
                 && now + Leading(sessions[i].feed, |log| - now) == next
            else now == next
  {
    YieldedNext(sessions, i);
    if sessions[i].Opened? {
      LeadingUndisturbed(sessions[i].feed, |log| - AtMost(|log|, end + Yielded(sessions[..i])));
    }
  }

  class RetryingWatch {
    /** watchOpts.ResourceVersion */
    var resourceVersion: nat
    /** Everything the event queue accepted. */
    var enqueued: seq<Event>
    /** Whether the event queue is closed. */
    var closed: bool
    /** What was read from the log for the queue: each error that ends a watch finishes a stretch and starts a new one. */
    ghost var finished: seq<Stretch>
    ghost var current: Stretch

    constructor (resourceVersion: nat, ghost log: seq<Change>, ghost skip: set<string>)
      ensures this.resourceVersion == resourceVersion && enqueued == [] && !closed && Follows(log, skip)
      ensures finished == [] && current == Stretch(Position(log, resourceVersion), Position(log, resourceVersion))
    {
      this.resourceVersion := resourceVersion;
      enqueued, closed, finished := [], false, [];
      current := Stretch(Position(log, resourceVersion), Position(log, resourceVersion));
    }

    /** The queue has the kept events of the stretches, and nothing else. */
    ghost predicate Holds(log: seq<Change>, skip: set<string>)
      reads this
    {
      && AllWithin(log, finished) && Within(log, current)
      && enqueued == KeptOf(log, finished, skip) + KeptIn(log, current, skip)
    }

    /** The cursor is at most `missed` changes ahead of what the queue has. */
    ghost predicate Ahead(log: seq<Change>, missed: nat)
      reads this
    {
      current.end <= Position(log, resourceVersion) <= current.end + missed
    }

    /** While the queue is open it has everything up to the cursor; only by its being closed can a change miss it. */
    ghost predicate Follows(log: seq<Change>, skip: set<string>)
      reads this
    {
      Holds(log, skip) && Ahead(log, if closed then 1 else 0)
    }

    method Enqueue(e: Event)
      modifies this`enqueued
      ensures enqueued == if closed then old(enqueued) else old(enqueued) + [e]
    {
      if !closed {
        enqueued := enqueued + [e];
      }
    }

    /** An open watch passes on the change at position `p`, which the cursor stands behind. */
    method PassOn(log: seq<Change>, skip: set<string>, p: nat, closesAfterCheck: bool)
      requires Holds(log, skip) && !closed && current.end == p < |log| && Position(log, resourceVersion) == p + 1
      modifies this`enqueued, this`closed, this`current
      ensures Follows(log, skip) && closed == closesAfterCheck
      ensures current == if closed then old(current) else Stretch(old(current).start, p + 1)
    {
      KeptNext(log, current.start, p, skip);
      closed := closesAfterCheck;
      if log[p].namespace !in skip {
        Enqueue(log[p].event);
      }
      if !closed {
        current := Stretch(current.start, p + 1);
      }
    }

    /** From now on the log is read from the cursor on. */
    ghost method Restart(log: seq<Change>, skip: set<string>)
      requires Holds(log, skip) && !closed
      modifies this`finished, this`current
      ensures Follows(log, skip) && finished == old(finished) + [old(current)]
      ensures current == Stretch(Position(log, resourceVersion), Position(log, resourceVersion))
    {
      KeptOfAppend(log, finished, current, skip);
      finished := finished + [current];
      current := Stretch(Position(log, resourceVersion), Position(log, resourceVersion));
      assert KeptIn(log, current, skip) == [];
    }

    /** The body of the retried function, once the watch is open: the leading reads of changes are passed on, and
        what the read after them yields decides how it ends. It fails only with an error event, and only then a new
        stretch starts, at the status object's version. */
    method Stream(log: seq<Change>, skip: set<string>, feed: seq<Read>) returns (outcome: Outcome)
      requires Ordered(log) && Follows(log, skip)
      modifies this
      ensures Holds(log, skip)
      ensures outcome != QueueClosed ==> Follows(log, skip)
      ensures outcome == QueueClosed ==> closed && (ErrorRead(feed, resourceVersion) || Ahead(log, 2))
      ensures old(closed) ==> closed && enqueued == old(enqueued) && current == old(current)
                              && outcome == if feed == [] then WatchClosed else QueueClosed
      ensures !old(closed) ==> EndOf(feed, |log| - old(current).end) == End(outcome, closed)
      ensures outcome != WatchFailed ==>
                && finished == old(finished)
                && (!old(closed) ==> current == After(old(current), Leading(feed, |log| - old(current).end)))
      ensures outcome == WatchFailed ==>
                var k := Leading(feed, |log| - old(current).end);
                && finished == old(finished) + [After(old(current), k)]
                && k < |feed| && feed[k].result == ErrorEvent(resourceVersion)
                && current == Stretch(Position(log, resourceVersion), Position(log, resourceVersion)) && !closed
    {
      ghost var open, current0, room := !closed, current, |log| - current.end;
      for i := 0 to |feed|
        invariant Follows(log, skip) && finished == old(finished)
        invariant !open ==> i == 0 && closed && enqueued == old(enqueued) && current == old(current)
        invariant open && !closed ==> current == After(current0, i)
        invariant open && !closed ==> Leading(feed, room) == i + Leading(feed[i..], room - i)
        invariant open && !closed ==> EndOf(feed, room) == EndOf(feed[i..], room - i)
        invariant open && closed ==> current == After(current0, Leading(feed, room))
        invariant open && closed ==> EndOf(feed, room) == End(if i == |feed| then WatchClosed else QueueClosed, true)
      {
        NextRead(feed, i, room - i);
        var end := ReadOnce(log, skip, feed[i]);
        if end.Some? {
          return end.value;
        }
      }
      return WatchClosed;
    }

    /** One read, and what is done about it; the result is how it ends the watch, if it does. */
    method ReadOnce(log: seq<Change>, skip: set<string>, r: Read) returns (end: Option<Outcome>)
      requires Ordered(log) && Follows(log, skip)
      modifies this
      ensures Holds(log, skip) && (end != Some(QueueClosed) ==> Follows(log, skip))
      ensures var room := old(Position(log, resourceVersion)) < |log|;
              end == if old(closed) || r.closesBeforeCheck then Some(QueueClosed)
                     else if r.result.ErrorEvent? then Some(WatchFailed)
                     else if r.result.ChannelClosed? || !room then Some(WatchClosed)
                     else None
      ensures closed == (old(closed) || r.closesBeforeCheck || (end.None? && r.closesAfterCheck))
      ensures r.result.ErrorEvent? ==> resourceVersion == r.result.version
      ensures end == Some(QueueClosed) && !r.result.ErrorEvent? ==> Ahead(log, 2)
      ensures end == Some(QueueClosed) ==> enqueued == old(enqueued)
      ensures if end == Some(WatchFailed)
              then finished == old(finished) + [old(current)]
                   && current == Stretch(Position(log, resourceVersion), Position(log, resourceVersion))
              else finished == old(finished)
                   && current == if end.None? && !closed then Stretch(old(current).start, old(current).end + 1) else old(current)
    {
      var p := Position(log, resourceVersion);
      var chanActive := r.result.ErrorEvent? || (r.result.NextChange? && p < |log|);
      if r.result.ErrorEvent? {
        resourceVersion := r.result.version;
      } else if chanActive {
        PositionOfChange(log, p);
        resourceVersion := log[p].version;
      }
      closed := closed || r.closesBeforeCheck;
      if closed {
        return Some(QueueClosed);
      }
      if !chanActive {
        return Some(WatchClosed);
      }
      if r.result.ErrorEvent? {
        Restart(log, skip);
        return Some(WatchFailed);
      }
      PassOn(log, skip, p, r.closesAfterCheck);
      return None;
    }

    /** Retries until the queue is found closed, or for as long as the environment is given. Across any number of
        failed and broken watches, the queue has the kept events of the stretches read, where only an error event
        starts a new stretch. Closing the queue costs at most the two changes read last, unless the last read was an
        error; and the watch is given up only then. */
    method WatchRetry(log: seq<Change>, skip: set<string>, sessions: seq<Session>) returns (givenUp: bool)
      requires Ordered(log) && Follows(log, skip) && finished == []
      modifies this
      ensures Holds(log, skip) && Traced(log, sessions, old(current).start)
      ensures !closed ==> Ahead(log, 0)
      ensures closed ==> Ahead(log, 2) || ErrorOccurs(sessions, resourceVersion)
      ensures givenUp ==> closed
      // a queue that is closed already is found so by the first read
      ensures old(closed) ==> (givenUp <==> AnyReads(sessions)) && enqueued == old(enqueued)
      // with neither errors nor a closing queue, every change that a watch yields gets to the queue
      ensures !old(closed) && Undisturbed(sessions) ==>
                var end := AtMost(|log|, old(current).end + Yielded(sessions));
                && !closed && !givenUp && Position(log, resourceVersion) == end
                && enqueued == old(enqueued) + Kept(log[old(current).end..end], skip)
    {
      ghost var calm, start, end := !closed && Undisturbed(sessions), current.start, current.end;
      ghost var shut, enqueued0 := closed, enqueued;
      OneStretch(log, skip);
      for i := 0 to |sessions|
        invariant Follows(log, skip) && Traced(log, sessions, start)
        invariant shut ==> closed && enqueued == enqueued0 && !AnyReads(sessions[..i])
        invariant calm ==> UpTo(log, sessions[..i], start, end)
      {
        AnyReadsNext(sessions, i);
        var outcome := RunSession(log, skip, sessions, i, start, end);
        if outcome == QueueClosed {
          return true;
        }
      }
      assert sessions[..|sessions|] == sessions;
      if calm {
        KeptMiddle(log, start, end, current.end, skip);
        OneStretch(log, skip);
      }
      return false;
    }

    /** All changes that the watches yielded were read, in one stretch. */
    ghost predicate UpTo(log: seq<Change>, sessions: seq<Session>, start: nat, end: nat)
      reads this
    {
      !closed && finished == [] && current == Stretch(start, AtMost(|log|, end + Yielded(sessions)))
    }

    lemma OneStretch(log: seq<Change>, skip: set<string>)
      requires Holds(log, skip)
      ensures finished == [] ==> enqueued == Kept(log[current.start..current.end], skip)
    {
    }

    /** The first stretch starts at `first`, all others where an error event says. */
    ghost predicate Traced(log: seq<Change>, sessions: seq<Session>, first: nat)
      reads this
    {
      && (if finished == [] then current.start == first
          else finished[0].start == first && StartsAtError(log, sessions, current))
      && forall k | 1 <= k < |finished| :: StartsAtError(log, sessions, finished[k])
    }

    /** One turn of the retry loop: the watch is opened, if that succeeds, and followed to its end. */
    method RunSession(log: seq<Change>, skip: set<string>, sessions: seq<Session>, i: nat, ghost start: nat, ghost end: nat)
      returns (outcome: Outcome)
      requires Ordered(log) && Follows(log, skip) && Traced(log, sessions, start)
      requires i < |sessions| && end <= |log|
      modifies this
      ensures Holds(log, skip) && Traced(log, sessions, start)
      ensures outcome != QueueClosed ==> Follows(log, skip)
      ensures outcome == QueueClosed ==> closed && (Ahead(log, 2) || ErrorOccurs(sessions, resourceVersion))
      ensures Undisturbed(sessions) && old(UpTo(log, sessions[..i], start, end)) ==>
                outcome != QueueClosed && UpTo(log, sessions[..i + 1], start, end)
      ensures old(closed) ==> closed && enqueued == old(enqueued) && (outcome == QueueClosed <==> Reads(sessions[i]))
    {
      if Undisturbed(sessions) {
        CalmSession(log, sessions, i, end);
      }
      if sessions[i].OpenFails? {
        return WatchFailed;
      }
      outcome := FollowWatch(log, skip, sessions, i, start);
    }

    method FollowWatch(log: seq<Change>, skip: set<string>, sessions: seq<Session>, i: nat, ghost start: nat)
      returns (outcome: Outcome)
      requires Ordered(log) && Follows(log, skip) && Traced(log, sessions, start)
      requires i < |sessions| && sessions[i].Opened?
      modifies this
      ensures Holds(log, skip) && Traced(log, sessions, start)
      ensures outcome != QueueClosed ==> Follows(log, skip)
      ensures outcome == QueueClosed ==> closed && (Ahead(log, 2) || ErrorOccurs(sessions, resourceVersion))
      ensures !old(closed) ==> EndOf(sessions[i].feed, |log| - old(current).end) == End(outcome, closed)
      ensures old(closed) ==> closed && enqueued == old(enqueued) && (outcome == QueueClosed <==> Reads(sessions[i]))
      ensures !old(closed) && outcome == WatchClosed ==>
                && finished == old(finished)
                && current == Stretch(old(current).start,
                                      old(current).end + Leading(sessions[i].feed, |log| - old(current).end))
    {
      ghost var before := finished + [current];
      outcome := Stream(log, skip, sessions[i].feed);
      if ErrorRead(sessions[i].feed, resourceVersion) {
        assert ErrorOccurs(sessions, resourceVersion);
      }
      if outcome == WatchFailed {
        assert forall k | 0 <= k < |finished| :: finished[k].start == before[k].start;
      }
    }
  }

  // ---------------------------------------------------------------- resumption without gaps

  /** The events before position `first`, and then those of the stretches, are the events up to the end of the last
      stretch: none was lost, repeated or moved. */
  ghost predicate GapFree(log: seq<Change>, first: nat, finished: seq<Stretch>, current: Stretch, skip: set<string>)
    requires AllWithin(log, finished) && Within(log, current) && first <= |log|
  {
    Kept(log[..first], skip) + (KeptOf(log, finished, skip) + KeptIn(log, current, skip)) == Kept(log[..current.end], skip)
  }

  /** No gap at any time: neither now, nor when the current stretch was started, nor before. */
  ghost predicate AlwaysGapFree(log: seq<Change>, first: nat, finished: seq<Stretch>, current: Stretch, skip: set<string>)
    requires AllWithin(log, finished) && Within(log, current) && first <= |log|
  {
    && GapFree(log, first, finished, current, skip)
    && GapFree(log, first, finished, Stretch(current.start, current.start), skip)
    && (finished != [] ==>
          AlwaysGapFree(log, first, finished[..|finished| - 1], finished[|finished| - 1], skip))
  }

  /** Every change between the two positions, whichever comes first, is of a skipped namespace. */
  ghost predicate NothingBetween(log: seq<Change>, p: nat, q: nat, skip: set<string>) {
    forall k | 0 <= k < |log| && (p <= k < q || q <= k < p) :: log[k].namespace in skip
  }

  /** Nothing but changes of skipped namespaces lies between the end of a stretch and the start of the next. */
  ghost predicate ErrorsHarmless(log: seq<Change>, finished: seq<Stretch>, current: Stretch, skip: set<string>) {
    finished != [] ==>
      var last := finished[|finished| - 1];
      ErrorsHarmless(log, finished[..|finished| - 1], last, skip) && NothingBetween(log, last.end, current.start, skip)
  }

  lemma KeptSplit(log: seq<Change>, p: nat, q: nat, skip: set<string>)
    requires p <= q <= |log|
    ensures Kept(log[..q], skip) == Kept(log[..p], skip) + Kept(log[p..q], skip)
  {
    assert log[..q] == log[..p] + log[p..q];
    KeptAppend(log[..p], log[p..q], skip);
  }

  lemma KeptMiddle(log: seq<Change>, p: nat, q: nat, t: nat, skip: set<string>)
    requires p <= q <= t <= |log|
    ensures Kept(log[p..t], skip) == Kept(log[p..q], skip) + Kept(log[q..t], skip)
  {
    assert log[p..t] == log[p..q] + log[q..t];
    KeptAppend(log[p..q], log[q..t], skip);
  }

  lemma {:induction false} KeptNothing(changes: seq<Change>, skip: set<string>)
    ensures Kept(changes, skip) == [] <==> forall k | 0 <= k < |changes| :: changes[k].namespace in skip
  {
    if changes != [] {
      KeptNothing(changes[..|changes| - 1], skip);
      assert forall k | 0 <= k < |changes| - 1 :: changes[..|changes| - 1][k] == changes[k];
    }
  }

  lemma SameKeptExactly(log: seq<Change>, p: nat, q: nat, skip: set<string>)
    requires p <= |log| && q <= |log|
    ensures Kept(log[..p], skip) == Kept(log[..q], skip) <==> NothingBetween(log, p, q, skip)
  {
    var a, b := if p <= q then p else q, if p <= q then q else p;
    KeptSplit(log, a, b, skip);
    KeptNothing(log[a..b], skip);
    assert forall k | a <= k < b :: log[a..b][k - a] == log[k];
  }

  /** A stretch that starts without a gap goes on without one. */
  lemma GapFreeGoesOn(log: seq<Change>, first: nat, finished: seq<Stretch>, current: Stretch, skip: set<string>)
    requires AllWithin(log, finished) && Within(log, current) && first <= |log|
    ensures GapFree(log, first, finished, Stretch(current.start, current.start), skip)
            ==> GapFree(log, first, finished, current, skip)
  {
    KeptSplit(log, current.start, current.end, skip);
    assert log[current.start..current.start] == [];
  }

  lemma GapFreeRestartExactly(log: seq<Change>, first: nat, finished: seq<Stretch>, current: Stretch, p: nat, skip: set<string>)
    requires AllWithin(log, finished) && Within(log, current) && first <= |log| && p <= |log|
    requires GapFree(log, first, finished, current, skip)
    ensures AllWithin(log, finished + [current])
    ensures GapFree(log, first, finished + [current], Stretch(p, p), skip) <==> NothingBetween(log, current.end, p, skip)
  {
    KeptOfAppend(log, finished, current, skip);
    assert log[p..p] == [];
    SameKeptExactly(log, current.end, p, skip);
  }

  /** The queue has the log without a gap, a repetition or a change of order at all times, if and only if each status
      object's version that a watch was resumed from leaves only changes of skipped namespaces between it and what
      was read before. Without error events there is one stretch, and the condition is empty. */
  lemma {:induction false} ResumesExactly(log: seq<Change>, first: nat, finished: seq<Stretch>, current: Stretch, skip: set<string>)
    requires AllWithin(log, finished) && Within(log, current)
    requires first == (if finished == [] then current else finished[0]).start
    ensures AlwaysGapFree(log, first, finished, current, skip) <==> ErrorsHarmless(log, finished, current, skip)
    decreases |finished|
  {
    GapFreeGoesOn(log, first, finished, current, skip);
    if finished == [] {
      assert log[first..first] == [];
    } else {
      var earlier, last := finished[..|finished| - 1], finished[|finished| - 1];
      assert finished == earlier + [last];
      ResumesExactly(log, first, earlier, last, skip);
      if AlwaysGapFree(log, first, earlier, last, skip) {
        GapFreeRestartExactly(log, first, earlier, last, current.start, skip);
      }
    }
  }

  /** An error event whose status has the version of a change yet to be read loses that change: the watch is resumed
      behind it, with nothing in the queue. */
  method ErrorLosesChangeExample(c: Change) returns (watch: RetryingWatch)
    requires c.version > 0
    ensures watch.Follows([c], {}) && !watch.closed
    ensures watch.enqueued == [] && Position([c], watch.resourceVersion) == 1 && Kept([c], {}) == [c.event]
  {
    watch := new RetryingWatch(0, [c], {});
    var outcome := watch.Stream([c], {}, [Read(ErrorEvent(c.version), false, false)]);
    assert Ordered([c]);
    PositionOfChange([c], 0);
    KeptNext([c], 0, 0, {});
    assert [c][0..0 + 1] == [c] && [c][0..0] == [];
  }

  // ---------------------------------------------------------------- what gap-free means

  /** The kept events are those of the changes outside the skipped namespaces, each once, in the log's order. */
  lemma {:induction false} KeptIsExact(changes: seq<Change>, skip: set<string>) returns (f: seq<nat>)
    ensures |f| == |Kept(changes, skip)|
    ensures forall i | 0 <= i < |f| :: f[i] < |changes| && Kept(changes, skip)[i] == changes[f[i]].event
    ensures forall i, j | 0 <= i < j < |f| :: f[i] < f[j]
    ensures forall c | 0 <= c < |changes| :: changes[c].namespace !in skip <==> c in f
  {
    f := [];
    if changes != [] {
      var n := |changes| - 1;
      f := KeptIsExact(changes[..n], skip);
      var g := f;
      if changes[n].namespace !in skip {
        f := g + [n];
      }
      forall c | 0 <= c < |changes|
        ensures changes[c].namespace !in skip <==> c in f
      {
        if c < n {
          assert changes[..n][c] == changes[c];
          assert c in f <==> c in g;
        } else {
          assert n !in g;
        }
      }
    }
  }
}
