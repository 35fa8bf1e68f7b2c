/** The pod watch handler of watcher/podwatcher.go, proved against the turn-by-turn meaning of ScanDedup. */
module PodWatcher {
  import opened Wrappers
  import opened ContainerUtils
  import opened PodSlugs
  import opened ScanDedup
  import opened ScanOrder
  import opened ScanRuns
  import opened ScanHistory
  import opened Watch

  /** A pod event, with the answers of the lookups made while it is handled: the instance IDs generated for the
      pod, its parent workload, and the no-container slugs that have a usable application profile. */
  datatype PodEvent = PodEvent(
    pod: Pod,
    instanceIDs: Result<seq<InstanceID>>,
    parent: Result<string>,
    profiles: map<string, string>)

  /** What reaches the watch: an event of a pod, created at some time, with or without a parent; or the timer of the
      pod delayed as number `d` fires. The pod may be gone by then, and the lookups are made only then. */
  datatype Input =
    | Arrives(eventType: EventType, ev: PodEvent, orphan: bool, createdAt: int, now: int)
    | Matures(d: nat, now: int, found: bool, parent: Result<string>, profiles: map<string, string>)

  datatype Delayed = Delayed(ev: PodEvent, due: int)

  lemma ImagesHaveInstances(pod: Pod, ids: seq<InstanceID>)
    ensures ImagesBySlug(pod, ids).Keys <= InstancesBySlug(ids).Keys
  {
    ImagesBySlugMeaning(pod, ids);
    InstancesBySlugMeaning(ids);
  }

  ghost function VisitOf(ev: PodEvent, slug: string): Visit
    requires ev.instanceIDs.Ok? && slug in ImagesBySlug(ev.pod, ev.instanceIDs.value)
  {
    ImagesHaveInstances(ev.pod, ev.instanceIDs.value);
    var id := InstancesBySlug(ev.instanceIDs.value)[slug];
    Visit(ev.pod, slug, ImagesBySlug(ev.pod, ev.instanceIDs.value)[slug], id.noContainerSlug,
          PodToContainerData(ev.pod, id, ev.parent),
          if id.noContainerSlug in ev.profiles then Some(ev.profiles[id.noContainerSlug]) else None)
  }

  /** One visit for every slug with an image; none if the instance IDs could not be generated. */
  ghost function VisitsOf(ev: PodEvent): set<Visit> {
    if ev.instanceIDs.Err? then {}
    else VisitsOfSlugs(ev, ImagesBySlug(ev.pod, ev.instanceIDs.value).Keys)
  }

  ghost function VisitsOfSlugs(ev: PodEvent, slugs: set<string>): set<Visit>
    requires ev.instanceIDs.Ok? && slugs <= ImagesBySlug(ev.pod, ev.instanceIDs.value).Keys
  {
    set slug | slug in slugs :: VisitOf(ev, slug)
  }

  lemma VisitOfSlug(ev: PodEvent, slug: string)
    requires ev.instanceIDs.Ok? && slug in ImagesBySlug(ev.pod, ev.instanceIDs.value)
    ensures var v := VisitOf(ev, slug);
            && v.slug == slug && v.pod == ev.pod
            && (v.data.Ok? ==> v.data.value.slug == slug)
            && v.profile == if v.noContainerSlug in ev.profiles then Some(ev.profiles[v.noContainerSlug]) else None
  {
    ImagesHaveInstances(ev.pod, ev.instanceIDs.value);
    InstancesBySlugMeaning(ev.instanceIDs.value);
  }

  /** Container names are unique across the pod's status lists, and slugs are unique. */
  ghost predicate WellNamed(ev: PodEvent) {
    ev.instanceIDs.Ok? ==> UniqueNames(Statuses(ev.pod)) && UniqueSlugs(ev.instanceIDs.value)
  }

  /** The image that a well-named pod reports for the slug of a resolved visit is the one resolved for its
      container. */
  lemma VisitsAgree(ev: PodEvent, v: Visit)
    requires v in VisitsOf(ev) && v.data.Ok?
    requires WellNamed(ev)
    ensures v.data.value.imageID == v.image
  {
    var ids := ev.instanceIDs.value;
    ImagesBySlugMeaning(ev.pod, ids);
    InstancesBySlugMeaning(ids);
    VisitOfSlug(ev, v.slug);
    var id, st :| id in ids && st in Statuses(ev.pod) && Reports(id, st, v.slug, v.image);
    assert id == InstancesBySlug(ids)[v.slug];
    ResolvedImageIsTheNamedStatus(ev.pod, id, ev.parent, st);
  }

  /** Redelivering the event of such a pod with the same lookup answers, in any loop order, submits nothing and
      leaves both caches as they are. */
  lemma RedeliveredPodIsQuiet(c: Caches, ev: PodEvent, vs: seq<Visit>, ws: seq<Visit>)
    requires SameVisits(vs, ws) && Elements(vs) == VisitsOf(ev)
    requires WellNamed(ev)
    ensures HandleEvent(HandleEvent(c, vs).caches, ws) == State(HandleEvent(c, vs).caches, {}, [])
  {
    forall v | v in vs && v.data.Ok?
      ensures v.data.value.imageID == v.image
    {
      assert v in Elements(vs);
      VisitsAgree(ev, v);
    }
    RedeliveryIsQuietExactly(c, vs, ws);
  }

  /** The visits of the run are those of these events. */
  ghost predicate HistoryOf(history: seq<seq<Visit>>, events: seq<PodEvent>) {
    |history| == |events| && forall i | 0 <= i < |history| :: Elements(history[i]) == VisitsOf(events[i])
  }

  ghost predicate HasInstance(ev: PodEvent, id: InstanceID) {
    ev.instanceIDs.Ok? && id in ev.instanceIDs.value
  }

  /** Wherever a slug occurs, it is of a container of one name, and of pods of one workload. */
  ghost predicate SlugsNameContainers(events: seq<PodEvent>) {
    forall e, f, id, id' | e in events && f in events && HasInstance(e, id) && HasInstance(f, id') && id.slug == id'.slug ::
      id.containerName == id'.containerName && (e.parent.Ok? && f.parent.Ok? ==> e.parent == f.parent)
  }

  /** A resolved visit of a run comes from an instance of one of its events. */
  lemma ResolvedFromInstance(history: seq<seq<Visit>>, events: seq<PodEvent>, v: Visit) returns (ev: PodEvent, id: InstanceID)
    requires HistoryOf(history, events) && Resolved(history, v)
    ensures ev in events && v in VisitsOf(ev) && HasInstance(ev, id) && id.slug == v.slug
    ensures ev.parent == Ok(v.data.value.wlid) && v.data.value.containerName == id.containerName
  {
    var i :| 0 <= i < |history| && v in history[i];
    assert v in Elements(history[i]);
    ev := events[i];
    InstancesBySlugMeaning(ev.instanceIDs.value);
    var slug :| slug in ImagesBySlug(ev.pod, ev.instanceIDs.value) && v == VisitOf(ev, slug);
    ImagesHaveInstances(ev.pod, ev.instanceIDs.value);
    id := InstancesBySlug(ev.instanceIDs.value)[slug];
    VisitOfSlug(ev, slug);
  }

  /** Pods with unique container names and slugs, and slugs that stand for one container of one workload: both
      caches always agree with the history of the pods' events. */
  lemma PodHistoryAgrees(history: seq<seq<Visit>>, events: seq<PodEvent>)
    requires Events(history) && HistoryOf(history, events)
    requires (forall ev | ev in events :: WellNamed(ev)) && SlugsNameContainers(events)
    ensures CachesAlwaysAgree(history)
  {
    forall v | Resolved(history, v)
      ensures v.data.value.imageID == v.image
    {
      var ev, _ := ResolvedFromInstance(history, events, v);
      VisitsAgree(ev, v);
    }
    forall v, w | Resolved(history, v) && Resolved(history, w) && v.slug == w.slug && v.data.value.imageID == w.image
      ensures Key(v) == Key(w)
    {
      var e, id := ResolvedFromInstance(history, events, v);
      var f, id' := ResolvedFromInstance(history, events, w);
      assert id.containerName == id'.containerName && e.parent == f.parent;
    }
    CachesAgreeWithHistory(history);
  }

  /** What a visit is made of: the slug's image, and the data, the no-container slug and the profile of the instance
      that has the slug. */
  lemma VisitIsOfInstance(ev: PodEvent, v: Visit, id: InstanceID)
    requires ev.instanceIDs.Ok? && id in ev.instanceIDs.value && UniqueSlugs(ev.instanceIDs.value)
    requires v in VisitsOf(ev) && v.slug == id.slug
    ensures v.pod == ev.pod && v.noContainerSlug == id.noContainerSlug && v.data == PodToContainerData(ev.pod, id, ev.parent)
    ensures v.profile.Some? <==> id.noContainerSlug in ev.profiles
    ensures v.profile.Some? ==> v.profile.value == ev.profiles[id.noContainerSlug]
    ensures Reported(ev.instanceIDs.value, Statuses(ev.pod), v.slug, v.image)
  {
    var ids := ev.instanceIDs.value;
    ImagesBySlugMeaning(ev.pod, ids);
    InstancesBySlugMeaning(ids);
    VisitOfSlug(ev, v.slug);
  }

  /** The first event of a pod without application profiles gets one image scan for each resolved container, in every
      order of the loop, as long as no two of them have the same name and image when written one after the other. */
  lemma EveryContainerScanned(ev: PodEvent, vs: seq<Visit>)
    requires OneEvent(vs) && Elements(vs) == VisitsOf(ev) && ev.profiles == map[]
    requires forall v, w | v in VisitsOf(ev) && w in VisitsOf(ev) && v != w && v.data.Ok? && w.data.Ok? ::
               v.data.value.containerName + v.data.value.imageID != w.data.value.containerName + w.data.value.imageID
    ensures multiset(Commands(HandleEvent(EMPTY_CACHES, vs).submitted))
         == multiset(set v | v in VisitsOf(ev) && v.data.Ok? :: Command.ScanImage(v.data.value, ev.pod))
    ensures |HandleEvent(EMPTY_CACHES, vs).submitted| == |set v | v in VisitsOf(ev) && v.data.Ok?|
  {
    var resolved := set v | v in VisitsOf(ev) && v.data.Ok?;
    var commands := set v | v in VisitsOf(ev) && v.data.Ok? :: Command.ScanImage(v.data.value, ev.pod);
    VisitsWithoutProfiles(ev);
    NamesAndImagesDecide(ev);
    CommandsIgnoreOrderIfKeysDistinct(EMPTY_CACHES, vs);
    assert Eligible(EMPTY_CACHES, Elements(vs)) == resolved;
    assert TurnCommands(resolved) == commands;
    OneCommandEach(resolved, ev.pod);
    assert commands == set v | v in resolved && v.data.Ok? :: Command.ScanImage(v.data.value, ev.pod);
    SameSize(HandleEvent(EMPTY_CACHES, vs).submitted, commands);
  }

  lemma SameSize(submitted: seq<Submission>, commands: set<Command>)
    requires multiset(Commands(submitted)) == multiset(commands)
    ensures |submitted| == |commands|
  {
    assert |multiset(Commands(submitted))| == |submitted|;
    assert |multiset(commands)| == |commands|;
  }

  lemma VisitsWithoutProfiles(ev: PodEvent)
    requires ev.profiles == map[]
    ensures forall v | v in VisitsOf(ev) :: v.profile == None && v.pod == ev.pod
  {
    forall v | v in VisitsOf(ev)
      ensures v.profile == None && v.pod == ev.pod
    {
      VisitOfSlug(ev, v.slug);
    }
  }

  lemma NamesAndImagesDecide(ev: PodEvent)
    requires forall v, w | v in VisitsOf(ev) && w in VisitsOf(ev) && v != w && v.data.Ok? && w.data.Ok? ::
               v.data.value.containerName + v.data.value.imageID != w.data.value.containerName + w.data.value.imageID
    ensures DistinctKeys(EMPTY_CACHES, VisitsOf(ev))
  {
    forall v, w | v in VisitsOf(ev) && w in VisitsOf(ev) && v.data.Ok? && w.data.Ok? && Key(v) == Key(w)
      ensures v == w
    {
      assert ev.parent == Ok(v.data.value.wlid) == Ok(w.data.value.wlid);
      KeysTellApart(v.data.value, w.data.value);
    }
  }

  lemma {:induction false} OneCommandEach(vs: set<Visit>, pod: Pod)
    requires forall v | v in vs :: v.data.Ok?
    requires forall v, w | v in vs && w in vs && v.data == w.data :: v == w
    ensures |set v | v in vs && v.data.Ok? :: Command.ScanImage(v.data.value, pod)| == |vs|
  {
    if vs != {} {
      var v :| v in vs;
      var rest := vs - {v};
      OneCommandEach(rest, pod);
      var scans := set w | w in rest && w.data.Ok? :: Command.ScanImage(w.data.value, pod);
      assert Command.ScanImage(v.data.value, pod) !in scans;
      assert (set w | w in vs && w.data.Ok? :: Command.ScanImage(w.data.value, pod))
          == scans + {Command.ScanImage(v.data.value, pod)};
    }
  }

  class WatchHandler {
    const guardTime: int
    /** The pods whose timers are running. */
    var delayed: seq<Delayed>
    var slugToImageID: map<string, string>
    var wlidAndImageID: set<string>
    /** The commands handed to the worker pool. */
    var commands: seq<Command>
    ghost var submitted: seq<Submission>

    ghost function TheCaches(): Caches
      reads this
    {
      Caches(slugToImageID, wlidAndImageID)
    }

    ghost predicate Valid()
      reads this
    {
      commands == Commands(submitted)
    }

    constructor (guardTime: int)
      ensures After([], []) && this.guardTime == guardTime
    {
      this.guardTime, delayed := guardTime, [];
      slugToImageID, wlidAndImageID, commands, submitted := map[], {}, [], [];
    }

    method ScanImage(pod: Pod, containerData: ContainerData, ghost newSlug: bool)
      requires Valid()
      modifies this`commands, this`submitted
      ensures Valid()
      ensures submitted == old(submitted)
                           + [Submission(Command.ScanImage(containerData, pod), GetWlidAndImageID(containerData), newSlug)]
    {
      commands := commands + [Command.ScanImage(containerData, pod)];
      submitted := submitted
                   + [Submission(Command.ScanImage(containerData, pod), GetWlidAndImageID(containerData), newSlug)];
    }

    method ScanApplicationProfile(wlid: string, name: string, namespace: string, ghost key: string, ghost newSlug: bool)
      requires Valid()
      modifies this`commands, this`submitted
      ensures Valid()
      ensures submitted == old(submitted)
                           + [Submission(Command.ScanApplicationProfile(wlid, name, namespace), key, newSlug)]
    {
      commands := commands + [Command.ScanApplicationProfile(wlid, name, namespace)];
      submitted := submitted + [Submission(Command.ScanApplicationProfile(wlid, name, namespace), key, newSlug)];
    }

    /** One turn of the loop of HandlePodWatcher; `v` is the visit it makes. */
    method HandleSlug(pod: Pod, slug: string, imageID: string, noContainerSlug: string, containerData: Result<ContainerData>,
                      profiles: map<string, string>, noContainerSlugs: set<string>, ghost v: Visit)
      returns (scanned: set<string>)
      requires Valid()
      requires v == Visit(pod, slug, imageID, noContainerSlug, containerData,
                          if noContainerSlug in profiles then Some(profiles[noContainerSlug]) else None)
      modifies this
      ensures Valid() && delayed == old(delayed)
      ensures var s := VisitSlug(State(old(TheCaches()), noContainerSlugs, old(submitted)), v);
              TheCaches() == s.caches && scanned == s.scanned && submitted == s.submitted
    {
      scanned := noContainerSlugs;
      if slug in slugToImageID {
        if slugToImageID[slug] == imageID {
          // use case 6
          return;
        }
        // use case 4
        if containerData.Err? {
          return;
        }
        var data := containerData.value;
        if noContainerSlug in noContainerSlugs {
          slugToImageID := slugToImageID[data.slug := data.imageID];
          wlidAndImageID := wlidAndImageID + {GetWlidAndImageID(data)};
          return;
        }
        if noContainerSlug in profiles {
          ScanApplicationProfile(profiles[noContainerSlug], noContainerSlug, pod.namespace, GetWlidAndImageID(data), false);
          scanned := noContainerSlugs + {noContainerSlug};
        } else {
          ScanImage(pod, data, false);
        }
        slugToImageID := slugToImageID[data.slug := data.imageID];
        wlidAndImageID := wlidAndImageID + {GetWlidAndImageID(data)};
      } else {
        if containerData.Err? {
          return;
        }
        var data := containerData.value;
        slugToImageID := slugToImageID[data.slug := data.imageID];
        if GetWlidAndImageID(data) in wlidAndImageID {
          // use case 5
          return;
        }
        if noContainerSlug in noContainerSlugs {
          wlidAndImageID := wlidAndImageID + {GetWlidAndImageID(data)};
          return;
        }
        // use cases 1, 2, 3
        if noContainerSlug in profiles {
          ScanApplicationProfile(profiles[noContainerSlug], noContainerSlug, pod.namespace, GetWlidAndImageID(data), true);
          scanned := noContainerSlugs + {noContainerSlug};
        } else {
          ScanImage(pod, data, true);
        }
        wlidAndImageID := wlidAndImageID + {GetWlidAndImageID(data)};
      }
    }

    /** `visits` is the order in which the loop happened to range over the slugs. */
    method HandlePodWatcher(ev: PodEvent) returns (ghost visits: seq<Visit>)
      requires Valid()
      modifies this
      ensures Valid() && delayed == old(delayed)
      ensures OneEvent(visits) && Elements(visits) == VisitsOf(ev)
      ensures TheCaches() == HandleEvent(old(TheCaches()), visits).caches
      ensures submitted == old(submitted) + HandleEvent(old(TheCaches()), visits).submitted
    {
      visits := [];
      if ev.instanceIDs.Err? {
        return;
      }
      var ids := ev.instanceIDs.value;
      var slugToInstanceID := MapSlugToInstanceID(ids);
      var slugsToImages := MapSlugsToImageIDs(ev.pod, ids);
      ImagesHaveInstances(ev.pod, ids);
      if |slugsToImages| == 0 {
        return;
      }
      var noContainerSlugs: set<string> := {};
      var remaining := slugsToImages.Keys;
      while remaining != {}
        invariant remaining <= slugsToImages.Keys && Valid() && delayed == old(delayed) && OneEvent(visits)
        invariant Elements(visits) == VisitsOfSlugs(ev, slugsToImages.Keys - remaining)
        invariant State(TheCaches(), noContainerSlugs, submitted)
               == VisitAll(State(old(TheCaches()), {}, old(submitted)), visits)
        decreases |remaining|
      {
        var slug :| slug in remaining;
        var id := slugToInstanceID[slug];
        ghost var before, v := visits, VisitOf(ev, slug);
        NextVisit(ev, visits, slug, slugsToImages.Keys - remaining);
        noContainerSlugs := HandleSlug(ev.pod, slug, slugsToImages[slug], id.noContainerSlug,
                                       PodToContainerData(ev.pod, id, ev.parent), ev.profiles, noContainerSlugs, v);
        visits := visits + [v];
        assert visits[..|visits| - 1] == before;
        assert slugsToImages.Keys - (remaining - {slug}) == (slugsToImages.Keys - remaining) + {slug};
        remaining := remaining - {slug};
      }
      SubmittedAppends(old(TheCaches()), old(submitted), visits);
    }

    /** The handler is where the run with this history of visits leads, and the inputs gave it that history. */
    ghost predicate After(inputs: seq<Input>, history: seq<seq<Visit>>)
      reads this
    {
      && Valid() && Events(history)
      && TheCaches() == Run(history).caches && submitted == Run(history).log
      && HistoryOf(history, Handled(guardTime, inputs)) && delayed == Waiting(guardTime, inputs)
    }

    /** Handles what reaches the watch one at a time; the run theorems speak about `history`. */
    method PodWatch(inputs: seq<Input>) returns (ghost history: seq<seq<Visit>>)
      requires After([], []) && Feasible(guardTime, inputs)
      modifies this
      ensures After(inputs, history)
    {
      history := [];
      for i := 0 to |inputs|
        invariant After(inputs[..i], history)
      {
        FeasiblePrefix(guardTime, inputs, i + 1);
        assert inputs[..i + 1] == inputs[..i] + [inputs[i]];
        NextInput(guardTime, inputs[..i], inputs[i]);
        history := HandleInput(inputs[i], inputs[..i], history);
      }
      assert inputs[..|inputs|] == inputs;
    }

    method HandleInput(input: Input, ghost before: seq<Input>, ghost history: seq<seq<Visit>>)
      returns (ghost history': seq<seq<Visit>>)
      requires After(before, history) && CanHappen(delayed, input)
      modifies this
      ensures After(before + [input], history')
    {
      NextInput(guardTime, before, input);
      history' := history;
      var next := Dispatch(input);
      if next.Some? {
        ghost var visits := HandlePodWatcher(next.value);
        RunNext(history, visits);
        history' := history + [visits];
      }
    }

    /** The event to handle now, if any; a young pod without a parent is put off, and its timer started. */
    method Dispatch(input: Input) returns (next: Option<PodEvent>)
      requires CanHappen(delayed, input)
      modifies this`delayed
      ensures delayed == WaitingAfter(guardTime, old(delayed), input)
      ensures next == HandledNow(guardTime, old(delayed), input)
    {
      match input
      case Arrives(eventType, ev, orphan, createdAt, now) =>
        if !eventType.Added? && !eventType.Modified? {
          return None;
        }
        if orphan && now < createdAt + guardTime {
          delayed := delayed + [Delayed(ev, createdAt + guardTime)];
          return None;
        }
        return Some(ev);
      case Matures(d, _, found, parent, profiles) =>
        var ev := delayed[d].ev;
        delayed := delayed[..d] + delayed[d + 1..];
        return if found then Some(ev.(parent := parent, profiles := profiles)) else None;
    }
  }

  // ---------------------------------------------------------------- what the watch handles, and when

  /** A timer fires only for a pod that is being delayed, and not before its time. */
  ghost predicate CanHappen(waiting: seq<Delayed>, input: Input) {
    input.Matures? ==> input.d < |waiting| && waiting[input.d].due <= input.now
  }

  /** The pods being delayed after one more input, each with the time its timer fires. */
  ghost function WaitingAfter(guardTime: int, waiting: seq<Delayed>, input: Input): seq<Delayed> {
    match input
    case Arrives(_, ev, _, createdAt, _) =>
      if IsDelayed(guardTime, input) then waiting + [Delayed(ev, createdAt + guardTime)] else waiting
    case Matures(d, _, _, _, _) =>
      if d < |waiting| then waiting[..d] + waiting[d + 1..] else waiting
  }

  ghost function Waiting(guardTime: int, inputs: seq<Input>): seq<Delayed> {
    if inputs == [] then []
    else WaitingAfter(guardTime, Waiting(guardTime, inputs[..|inputs| - 1]), inputs[|inputs| - 1])
  }

  ghost predicate Feasible(guardTime: int, inputs: seq<Input>) {
    inputs != [] ==>
      var before := inputs[..|inputs| - 1];
      Feasible(guardTime, before) && CanHappen(Waiting(guardTime, before), inputs[|inputs| - 1])
  }

  lemma {:induction false} FeasiblePrefix(guardTime: int, inputs: seq<Input>, n: nat)
    requires Feasible(guardTime, inputs) && n <= |inputs|
    ensures Feasible(guardTime, inputs[..n])
  {
    if n < |inputs| {
      FeasiblePrefix(guardTime, inputs[..|inputs| - 1], n);
      assert inputs[..|inputs| - 1][..n] == inputs[..n];
    } else {
      assert inputs[..n] == inputs;
    }
  }

  lemma NextInput(guardTime: int, before: seq<Input>, input: Input)
    ensures Feasible(guardTime, before + [input]) ==> CanHappen(Waiting(guardTime, before), input)
    ensures Waiting(guardTime, before + [input]) == WaitingAfter(guardTime, Waiting(guardTime, before), input)
    ensures Handled(guardTime, before + [input]) == Handled(guardTime, before) +
              match HandledNow(guardTime, Waiting(guardTime, before), input) case None => [] case Some(ev) => [ev]
  {
    assert (before + [input])[..|before|] == before;
  }

  lemma RunNext(history: seq<seq<Visit>>, visits: seq<Visit>)
    requires Events(history) && OneEvent(visits)
    ensures Events(history + [visits])
    ensures var s := HandleEvent(Run(history).caches, visits);
            Run(history + [visits]) == RunState(s.caches, Run(history).log + s.submitted)
  {
    assert (history + [visits])[..|history|] == history;
  }

  ghost predicate Accepted(input: Input) {
    input.Arrives? && (input.eventType.Added? || input.eventType.Modified?)
  }

  /** A young pod without a parent: its handling has to wait. */
  ghost predicate IsDelayed(guardTime: int, input: Input) {
    Accepted(input) && input.orphan && input.now < input.createdAt + guardTime
  }

  /** The event that an input makes the watch handle, given the pods being delayed. */
  ghost function HandledNow(guardTime: int, waiting: seq<Delayed>, input: Input): Option<PodEvent> {
    match input
    case Arrives(_, ev, _, _, _) => if Accepted(input) && !IsDelayed(guardTime, input) then Some(ev) else None
    case Matures(d, _, found, parent, profiles) =>
      if found && d < |waiting| then Some(waiting[d].ev.(parent := parent, profiles := profiles)) else None
  }

  /** The events that are handled, in order: additions and modifications, but of young pods without a parent only
      once they are mature and still there. */
  ghost function Handled(guardTime: int, inputs: seq<Input>): seq<PodEvent> {
    if inputs == [] then []
    else
      var before, last := inputs[..|inputs| - 1], inputs[|inputs| - 1];
      Handled(guardTime, before) +
      match HandledNow(guardTime, Waiting(guardTime, before), last) case None => [] case Some(ev) => [ev]
  }

  /** When a pod is handled: an addition or modification at once, if the pod has a parent or is old enough; otherwise
      when its timer fires at the guard time, if it still exists, with what the lookups answer then. */
  lemma HandledWhen(guardTime: int, waiting: seq<Delayed>, input: Input)
    requires CanHappen(waiting, input)
    ensures forall eventType, ev, orphan, createdAt, now |
              input == Arrives(eventType, ev, orphan, createdAt, now) ::
              var accepted := eventType == EventType.Added || eventType == EventType.Modified;
              && HandledNow(guardTime, waiting, input)
                 == (if accepted && (!orphan || now >= createdAt + guardTime) then Some(ev) else None)
              && WaitingAfter(guardTime, waiting, input)
                 == waiting + (if accepted && orphan && now < createdAt + guardTime
                               then [Delayed(ev, createdAt + guardTime)] else [])
    ensures input.Matures? ==>
              && WaitingAfter(guardTime, waiting, input) == waiting[..input.d] + waiting[input.d + 1..]
              && HandledNow(guardTime, waiting, input)
                 == (if input.found
                     then Some(waiting[input.d].ev.(parent := input.parent, profiles := input.profiles)) else None)
  {
    if input.Arrives? {
      assert waiting + [] == waiting;
    }
  }

  /** How many of the inputs satisfy `p`. */
  ghost function HowMany(inputs: seq<Input>, p: Input -> bool): nat {
    if inputs == [] then 0
    else HowMany(inputs[..|inputs| - 1], p) + if p(inputs[|inputs| - 1]) then 1 else 0
  }

  /** Every accepted event is handled once, except for those still delayed and those whose pod was gone. */
  lemma {:induction false} EventsHandledOnce(guardTime: int, inputs: seq<Input>)
    requires Feasible(guardTime, inputs)
    ensures HowMany(inputs, i => Accepted(i))
         == |Handled(guardTime, inputs)| + |Waiting(guardTime, inputs)| + HowMany(inputs, (i: Input) => i.Matures? && !i.found)
  {
    if inputs != [] {
      EventsHandledOnce(guardTime, inputs[..|inputs| - 1]);
    }
  }

  /** A pod that is being delayed came with an earlier event that found it young and without a parent. */
  lemma {:induction false} DelayedCameEarlier(guardTime: int, inputs: seq<Input>, d: nat) returns (j: nat)
    requires d < |Waiting(guardTime, inputs)|
    ensures j < |inputs| && IsDelayed(guardTime, inputs[j])
    ensures Waiting(guardTime, inputs)[d] == Delayed(inputs[j].ev, inputs[j].createdAt + guardTime)
  {
    var n := |inputs| - 1;
    var before := Waiting(guardTime, inputs[..n]);
    if d == |before| {
      j := n;
    } else if inputs[n].Matures? && inputs[n].d < |before| && inputs[n].d <= d {
      j := DelayedCameEarlier(guardTime, inputs[..n], d + 1);
    } else {
      j := DelayedCameEarlier(guardTime, inputs[..n], d);
    }
  }

  /** No young pod without a parent is handled: what an input makes the watch handle came with an event that found
      the pod with a parent or old enough, or with one that had it delayed until it was old enough. */
  lemma NoYoungOrphanHandled(guardTime: int, inputs: seq<Input>) returns (j: nat)
    requires Feasible(guardTime, inputs) && inputs != []
    requires HandledNow(guardTime, Waiting(guardTime, inputs[..|inputs| - 1]), inputs[|inputs| - 1]).Some?
    ensures j < |inputs| && Accepted(inputs[j])
    ensures inputs[j].orphan ==> inputs[j].createdAt + guardTime <= inputs[|inputs| - 1].now
    ensures var ev := HandledNow(guardTime, Waiting(guardTime, inputs[..|inputs| - 1]), inputs[|inputs| - 1]).value;
            ev.pod == inputs[j].ev.pod && ev.instanceIDs == inputs[j].ev.instanceIDs
  {
    var n := |inputs| - 1;
    if inputs[n].Matures? {
      j := DelayedCameEarlier(guardTime, inputs[..n], inputs[n].d);
    } else {
      j := n;
    }
  }

  lemma {:induction false} SubmittedAppends(c: Caches, log: seq<Submission>, vs: seq<Visit>)
    ensures var s, s0 := VisitAll(State(c, {}, log), vs), HandleEvent(c, vs);
            s == State(s0.caches, s0.scanned, log + s0.submitted)
  {
    if vs == [] {
      assert log + [] == log;
    } else {
      SubmittedAppends(c, log, vs[..|vs| - 1]);
    }
  }

  lemma NextVisit(ev: PodEvent, visits: seq<Visit>, slug: string, done: set<string>)
    requires ev.instanceIDs.Ok?
    requires done <= ImagesBySlug(ev.pod, ev.instanceIDs.value).Keys
    requires slug in ImagesBySlug(ev.pod, ev.instanceIDs.value) && slug !in done
    requires OneEvent(visits) && Elements(visits) == VisitsOfSlugs(ev, done)
    ensures OneEvent(visits + [VisitOf(ev, slug)])
    ensures Elements(visits + [VisitOf(ev, slug)]) == VisitsOfSlugs(ev, done + {slug})
  {
    var vs := visits + [VisitOf(ev, slug)];
    VisitOfSlug(ev, slug);
    forall v | v in visits
      ensures v.slug in done && v == VisitOf(ev, v.slug)
    {
      assert v in Elements(visits);
      var s :| s in done && v == VisitOf(ev, s);
      VisitOfSlug(ev, s);
    }
    assert Elements(vs) == Elements(visits) + {VisitOf(ev, slug)};
    forall v | v in vs
      ensures v == VisitOf(ev, v.slug) && v.slug in done + {slug}
    {
    }
    forall s | s in done + {slug}
      ensures var v := VisitOf(ev, s);
              && v.pod == ev.pod && (v.data.Ok? ==> v.data.value.slug == v.slug)
              && v.profile == if v.noContainerSlug in ev.profiles then Some(ev.profiles[v.noContainerSlug]) else None
    {
      VisitOfSlug(ev, s);
    }
  }
}
