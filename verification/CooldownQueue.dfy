/** The cooldown queue of watcher/cooldownqueue.go: events of one object are coalesced until the object has been
    quiet for a while. The expiring cache is a map with a deadline for each key; when a deadline has passed,
    the cache drops the entry and calls the eviction callback with it. */
module CooldownQueue {
  import opened Wrappers
  import opened Slashes
  import opened Watch

  // ---------------------------------------------------------------- keys

  function Join(parts: seq<string>): string {
    if parts == [] then ""
    else if |parts| == 1 then parts[0]
    else parts[0] + "/" + Join(parts[1..])
  }

  function Parts(o: Object): seq<string>
    requires o.meta.Some?
  {
    [o.group, o.version, o.kind, o.meta.value.namespace, o.meta.value.name]
  }

  function MakeEventKey(e: Event): Result<string> {
    if e.obj.meta.None? then Err("object does not implement metav1.Object") else Ok(Join(Parts(e.obj)))
  }

  ghost predicate SlashFree(parts: seq<string>) {
    forall i | 0 <= i < |parts| :: '/' !in parts[i]
  }

  lemma {:induction false} JoinInjective(a: seq<string>, b: seq<string>)
    requires |a| == |b| > 0 && SlashFree(a) && SlashFree(b) && Join(a) == Join(b)
    ensures a == b
  {
    if |a| > 1 {
      SplitAtSlash(a[0], b[0], Join(a[1..]), Join(b[1..]));
      JoinInjective(a[1..], b[1..]);
      assert a == [a[0]] + a[1..] && b == [b[0]] + b[1..];
    }
  }

  /** Kubernetes group, version, kind, namespace and name never contain a slash. */
  ghost predicate NamedLikeKubernetes(e: Event) {
    e.obj.meta.Some? ==>
      && '/' !in e.obj.group && '/' !in e.obj.version && '/' !in e.obj.kind
      && '/' !in e.obj.meta.value.namespace && '/' !in e.obj.meta.value.name
  }

  /** The events are about one object. */
  ghost predicate SameObject(e: Event, f: Event) {
    && e.obj.meta.Some? && f.obj.meta.Some?
    && e.obj.group == f.obj.group && e.obj.version == f.obj.version && e.obj.kind == f.obj.kind
    && e.obj.meta.value.namespace == f.obj.meta.value.namespace && e.obj.meta.value.name == f.obj.meta.value.name
  }

  /** What the key is: group, version, kind, namespace and name. */
  lemma KeyText(e: Event)
    ensures MakeEventKey(e).Ok? <==> e.obj.meta.Some?
    ensures e.obj.meta.Some? ==>
              MakeEventKey(e).value == e.obj.group + "/" + e.obj.version + "/" + e.obj.kind + "/"
                                       + e.obj.meta.value.namespace + "/" + e.obj.meta.value.name
  {
    if e.obj.meta.Some? {
      var p := Parts(e.obj);
      assert p[1..] == [p[1], p[2], p[3], p[4]] && p[1..][1..] == [p[2], p[3], p[4]];
      assert p[1..][1..][1..] == [p[3], p[4]] && p[1..][1..][1..][1..] == [p[4]];
      assert Join([p[3], p[4]]) == p[3] + "/" + p[4] by { assert [p[3], p[4]][1..] == [p[4]]; }
      assert Join(p[1..][1..]) == p[2] + "/" + Join([p[3], p[4]]);
      assert Join(p[1..]) == p[1] + "/" + Join(p[1..][1..]);
      assert Join(p) == p[0] + "/" + Join(p[1..]);
    }
  }

  /** Two events have one key exactly when group, version, kind, namespace and name are all equal. */
  lemma KeyIdentifiesObject(e: Event, f: Event)
    requires NamedLikeKubernetes(e) && NamedLikeKubernetes(f)
    requires e.obj.meta.Some? && f.obj.meta.Some?
    ensures MakeEventKey(e) == MakeEventKey(f) <==>
            && e.obj.group == f.obj.group && e.obj.version == f.obj.version && e.obj.kind == f.obj.kind
            && e.obj.meta.value.namespace == f.obj.meta.value.namespace && e.obj.meta.value.name == f.obj.meta.value.name
  {
    if MakeEventKey(e) == MakeEventKey(f) {
      var p, q := Parts(e.obj), Parts(f.obj);
      assert SlashFree(p) && SlashFree(q);
      JoinInjective(p, q);
      assert p[0] == q[0] && p[1] == q[1] && p[2] == q[2] && p[3] == q[3] && p[4] == q[4];
    }
  }

  // ---------------------------------------------------------------- history of a queue

  datatype Entry =
    | Enqueued(key: string, event: Event, at: int)
    | Emitted(key: string, event: Event, at: int)

  function KeyOf(entry: Entry): string {
    entry.key
  }

  ghost function Latest(log: seq<Entry>, key: string): Option<Entry> {
    LastOf(log, KeyOf, key)
  }

  ghost predicate Waiting(log: seq<Entry>, key: string) {
    Latest(log, key).Some? && Latest(log, key).value.Enqueued?
  }

  /** Every emission is of the event enqueued last for its key, and at least the cooldown after that. */
  ghost predicate Cooled(cooldown: int, log: seq<Entry>) {
    log != [] ==>
      var last := log[|log| - 1];
      && Cooled(cooldown, log[..|log| - 1])
      && MakeEventKey(last.event) == Ok(last.key)
      && (last.Emitted? ==>
            var before := Latest(log[..|log| - 1], last.key);
            before.Some? && before.value.Enqueued? && before.value.event == last.event
            && before.value.at + cooldown <= last.at)
  }

  datatype Pending = Pending(event: Event, deadline: int)

  /** The cache holds exactly the events still waiting, each until its cooldown is over. */
  ghost predicate Tracks(seen: map<string, Pending>, cooldown: int, log: seq<Entry>) {
    forall k :: (k in seen <==> Waiting(log, k))
                && (k in seen ==> seen[k] == Pending(Latest(log, k).value.event, Latest(log, k).value.at + cooldown))
  }

  class Queue {
    const expiration: int
    var closed: bool
    var seenEvents: map<string, Pending>
    /** What the consumer received from the channel. */
    var received: seq<Event>
    ghost var log: seq<Entry>

    ghost predicate Valid()
      reads this
    {
      Cooled(expiration, log) && Tracks(seenEvents, expiration, log) && received == Emissions(log)
    }

    constructor (expiration: int)
      ensures Valid() && !closed && log == [] && this.expiration == expiration
    {
      this.expiration := expiration;
      closed, seenEvents, received, log := false, map[], [], [];
    }

    method Closed() returns (r: bool)
      ensures r == closed
    {
      return closed;
    }

    method Enqueue(e: Event, now: int)
      requires Valid()
      modifies this
      ensures Valid() && closed == old(closed)
      ensures log == if old(closed) || MakeEventKey(e).Err? then old(log)
                     else old(log) + [Enqueued(MakeEventKey(e).value, e, now)]
      ensures seenEvents == if old(closed) || MakeEventKey(e).Err? then old(seenEvents)
                            else old(seenEvents)[MakeEventKey(e).value := Pending(e, now + expiration)]
    {
      if closed {
        return;
      }
      var eventKey := MakeEventKey(e);
      if eventKey.Err? {
        return;
      }
      seenEvents := seenEvents[eventKey.value := Pending(e, now + expiration)];
      log := log + [Enqueued(eventKey.value, e, now)];
      assert log[..|log| - 1] == old(log);
      EmissionsAppend(old(log), log[|log| - 1]);
    }

    /** The cache evicts an entry whose deadline has passed, and the callback sends its event to the consumer.
        On a channel that was closed meanwhile, the send panics. */
    method Evict(key: string, now: int) returns (panicked: bool)
      requires Valid()
      requires key in seenEvents && seenEvents[key].deadline <= now
      modifies this
      ensures closed == old(closed) && panicked == old(closed) && seenEvents == old(seenEvents) - {key}
      ensures received == if panicked then old(received) else old(received) + [old(seenEvents)[key].event]
      ensures !panicked ==> Valid() && log == old(log) + [Emitted(key, old(seenEvents)[key].event, now)]
    {
      var value := seenEvents[key];
      seenEvents := seenEvents - {key};
      if closed {
        return true;
      }
      received := received + [value.event];
      log := log + [Emitted(key, value.event, now)];
      assert log[..|log| - 1] == old(log);
      LatestIsEntry(expiration, old(log), key);
      EmissionsAppend(old(log), log[|log| - 1]);
      return false;
    }

    /** Closing the channel a second time panics; the queue stays closed. */
    method Stop() returns (panicked: bool)
      requires Valid()
      modifies this`closed
      ensures Valid() && closed && panicked == old(closed)
    {
      panicked := closed;
      closed := true;
    }
  }

  /** Who an enqueue concerns: what waits for the same object is replaced, what waits for any other object goes on
      waiting as it was. */
  lemma EnqueueConcernsOneObject(queue: Queue, e: Event, now: int)
    requires queue.Valid() && e.obj.meta.Some? && NamedLikeKubernetes(e)
    ensures MakeEventKey(e).Ok?
    ensures var seen := queue.seenEvents;
            var seen' := seen[MakeEventKey(e).value := Pending(e, now + queue.expiration)];
            forall k | k in seen && NamedLikeKubernetes(seen[k].event) ::
              k in seen' && seen'[k] == if SameObject(e, seen[k].event) then Pending(e, now + queue.expiration) else seen[k]
  {
    var seen := queue.seenEvents;
    KeyText(e);
    forall k | k in seen && NamedLikeKubernetes(seen[k].event)
      ensures SameObject(e, seen[k].event) <==> MakeEventKey(e) == Ok(k)
    {
      LatestIsEntry(queue.expiration, queue.log, k);
      KeyText(seen[k].event);
      KeyIdentifiesObject(e, seen[k].event);
    }
  }

  /** Everything emitted, in order. */
  ghost function Emissions(log: seq<Entry>): seq<Event> {
    if log == [] then []
    else
      var last := log[|log| - 1];
      Emissions(log[..|log| - 1]) + if last.Emitted? then [last.event] else []
  }

  lemma EmissionsAppend(log: seq<Entry>, x: Entry)
    ensures Emissions(log + [x]) == Emissions(log) + if x.Emitted? then [x.event] else []
  {
    assert (log + [x])[..|log|] == log;
  }

  lemma {:induction false} LatestIsEntry(cooldown: int, log: seq<Entry>, key: string)
    requires Cooled(cooldown, log)
    ensures Latest(log, key).Some? ==> Latest(log, key).value in log && Latest(log, key).value.key == key
                                       && MakeEventKey(Latest(log, key).value.event) == Ok(key)
  {
    if log != [] && log[|log| - 1].key != key {
      LatestIsEntry(cooldown, log[..|log| - 1], key);
    }
  }

  // ---------------------------------------------------------------- what every history satisfies

  lemma {:induction false} CooledPrefix(cooldown: int, log: seq<Entry>, p: nat)
    requires Cooled(cooldown, log) && p <= |log|
    ensures Cooled(cooldown, log[..p])
  {
    if p < |log| {
      CooledPrefix(cooldown, log[..|log| - 1], p);
      assert log[..|log| - 1][..p] == log[..p];
    } else {
      assert log[..p] == log;
    }
  }

  /** `q` is the enqueue that the emission at `p` delivers: nothing happened to the key in between, and the
      cooldown passed. */
  ghost predicate Delivers(cooldown: int, log: seq<Entry>, q: nat, p: nat)
    requires q < p < |log|
  {
    && log[q].Enqueued? && log[q].key == log[p].key && log[q].event == log[p].event
    && log[q].at + cooldown <= log[p].at
    && forall r | q < r < p :: log[r].key != log[p].key
  }

  /** Quiet period: each emission delivers the latest event of its object, after a cooldown without another. */
  lemma EmissionsAreCooled(cooldown: int, log: seq<Entry>, p: nat)
    requires Cooled(cooldown, log) && p < |log| && log[p].Emitted?
    ensures exists q :: 0 <= q < p && Delivers(cooldown, log, q, p)
  {
    CooledPrefix(cooldown, log, p + 1);
    assert log[..p + 1][..p] == log[..p];
    var q := LastOfPosition(log[..p], KeyOf, log[p].key);
    assert Delivers(cooldown, log, q, p);
  }

  lemma EntryHasItsKey(cooldown: int, log: seq<Entry>, p: nat)
    requires Cooled(cooldown, log) && p < |log|
    ensures MakeEventKey(log[p].event) == Ok(log[p].key)
  {
    CooledPrefix(cooldown, log, p + 1);
  }

  /** Two entries are for one key exactly when they are about one object. */
  lemma KeysAreObjects(cooldown: int, log: seq<Entry>, p: nat, q: nat)
    requires Cooled(cooldown, log) && p < |log| && q < |log|
    requires NamedLikeKubernetes(log[p].event) && NamedLikeKubernetes(log[q].event)
    ensures log[p].key == log[q].key <==> SameObject(log[p].event, log[q].event)
  {
    EntryHasItsKey(cooldown, log, p);
    EntryHasItsKey(cooldown, log, q);
    KeyText(log[p].event);
    KeyText(log[q].event);
    KeyIdentifiesObject(log[p].event, log[q].event);
  }

  ghost function EnqueuedOf(log: seq<Entry>, key: string): seq<Event> {
    if log == [] then []
    else
      var last := log[|log| - 1];
      EnqueuedOf(log[..|log| - 1], key) + if last.Enqueued? && last.key == key then [last.event] else []
  }

  ghost function EmittedOf(log: seq<Entry>, key: string): seq<Event> {
    if log == [] then []
    else
      var last := log[|log| - 1];
      EmittedOf(log[..|log| - 1], key) + if last.Emitted? && last.key == key then [last.event] else []
  }

  /** How many enqueues replaced an event that was still waiting. */
  ghost function Overridden(log: seq<Entry>, key: string): nat {
    if log == [] then 0
    else
      var before := log[..|log| - 1];
      Overridden(before, key)
      + if log[|log| - 1].Enqueued? && log[|log| - 1].key == key && Waiting(before, key) then 1 else 0
  }

  /** Enqueued = emitted + overridden + pending, for each key. */
  lemma {:induction false} EventsConserved(cooldown: int, log: seq<Entry>, key: string)
    requires Cooled(cooldown, log)
    ensures |EnqueuedOf(log, key)| == |EmittedOf(log, key)| + Overridden(log, key) + if Waiting(log, key) then 1 else 0
  {
    if log != [] {
      EventsConserved(cooldown, log[..|log| - 1], key);
    }
  }

  /** Last write wins: the event waiting is the one enqueued last; with none waiting, the last event emitted is
      the last one enqueued. */
  lemma {:induction false} LastWriteWins(cooldown: int, log: seq<Entry>, key: string)
    requires Cooled(cooldown, log) && EnqueuedOf(log, key) != []
    ensures var enqueued, emitted := EnqueuedOf(log, key), EmittedOf(log, key);
            if Waiting(log, key) then Latest(log, key).value.event == enqueued[|enqueued| - 1]
            else emitted != [] && emitted[|emitted| - 1] == enqueued[|enqueued| - 1]
    ensures Latest(log, key).Some?
  {
    if EnqueuedOf(log[..|log| - 1], key) != [] {
      LastWriteWins(cooldown, log[..|log| - 1], key);
    }
  }

  /** The emissions of a key are a subsequence of its enqueues: `f` says which enqueue each one delivers. */
  lemma {:induction false} EmissionsAreSubsequence(cooldown: int, log: seq<Entry>, key: string) returns (f: seq<nat>)
    requires Cooled(cooldown, log)
    ensures |f| == |EmittedOf(log, key)|
    ensures forall i | 0 <= i < |f| :: f[i] < |EnqueuedOf(log, key)| && EmittedOf(log, key)[i] == EnqueuedOf(log, key)[f[i]]
    ensures forall i, j | 0 <= i < j < |f| :: f[i] < f[j]
    ensures Waiting(log, key) ==> forall i | 0 <= i < |f| :: f[i] < |EnqueuedOf(log, key)| - 1
  {
    f := [];
    if log != [] {
      f := EmissionsAreSubsequence(cooldown, log[..|log| - 1], key);
      var last := log[|log| - 1];
      if last.Emitted? && last.key == key {
        WaitingHasEnqueued(log[..|log| - 1], key);
        LastWriteWins(cooldown, log[..|log| - 1], key);
        f := f + [|EnqueuedOf(log, key)| - 1];
      }
    }
  }

  lemma {:induction false} WaitingHasEnqueued(log: seq<Entry>, key: string)
    requires Waiting(log, key)
    ensures EnqueuedOf(log, key) != []
  {
    if log[|log| - 1].key != key {
      WaitingHasEnqueued(log[..|log| - 1], key);
    }
  }
}
