/** What handling pod events does to the two scan caches, turn by turn and over whole runs
    (the loop of handlePodWatcher in watcher/podwatcher.go). */
module ScanDedup {
  import opened Wrappers
  import opened ContainerUtils

  datatype Command =
    | ScanImage(data: ContainerData, pod: Pod)
    | ScanApplicationProfile(wlid: string, name: string, namespace: string)

  /** One turn of the handler's loop: a slug of the event's pod with the answers of the lookups made for it.
      `profile` is the workload annotation of the usable application profile named like the no-container slug. */
  datatype Visit = Visit(
    pod: Pod,
    slug: string,
    image: string,
    noContainerSlug: string,
    data: Result<ContainerData>,
    profile: Option<string>)

  /** A command handed to the worker pool, with the key that the same turn marks as covered, and whether
      the slug was new (use cases 1, 2 and 3) rather than cached with another image (use case 4). */
  datatype Submission = Submission(command: Command, key: string, newSlug: bool)

  datatype Caches = Caches(slugToImageID: map<string, string>, wlidAndImageID: set<string>)

  const EMPTY_CACHES := Caches(map[], {})

  /** The caches, the no-container slugs whose profile was scanned in this event, and the commands so far. */
  datatype State = State(caches: Caches, scanned: set<string>, submitted: seq<Submission>)

  ghost function Key(v: Visit): string
    requires v.data.Ok?
  {
    GetWlidAndImageID(v.data.value)
  }

  ghost function CommandOf(v: Visit): Command
    requires v.data.Ok?
  {
    match v.profile
    case Some(wlid) => ScanApplicationProfile(wlid, v.noContainerSlug, v.pod.namespace)
    case None => ScanImage(v.data.value, v.pod)
  }

  ghost predicate Cached(c: Caches, v: Visit) {
    v.slug in c.slugToImageID
  }

  /** The turn gets past use case 6 and past the container data lookup. */
  ghost predicate Active(c: Caches, v: Visit) {
    v.data.Ok? && !(Cached(c, v) && c.slugToImageID[v.slug] == v.image)
  }

  ghost function VisitSlug(s: State, v: Visit): State {
    if !Active(s.caches, v) then s
    else
      var data := v.data.value;
      var slugs := s.caches.slugToImageID[data.slug := data.imageID];
      if !Cached(s.caches, v) && Key(v) in s.caches.wlidAndImageID then
        s.(caches := Caches(slugs, s.caches.wlidAndImageID))
      else
        var marked := s.(caches := Caches(slugs, s.caches.wlidAndImageID + {Key(v)}));
        if v.noContainerSlug in s.scanned then marked
        else
          marked.(scanned := if v.profile.Some? then s.scanned + {v.noContainerSlug} else s.scanned,
                  submitted := s.submitted + [Submission(CommandOf(v), Key(v), !Cached(s.caches, v))])
  }

  ghost function VisitAll(s: State, vs: seq<Visit>): State {
    if vs == [] then s else VisitSlug(VisitAll(s, vs[..|vs| - 1]), vs[|vs| - 1])
  }

  ghost function HandleEvent(c: Caches, vs: seq<Visit>): State {
    VisitAll(State(c, {}, []), vs)
  }

  /** What holds of the turns of one event: one pod, one turn a slug, one profile lookup a no-container slug. */
  ghost predicate OneEvent(vs: seq<Visit>) {
    && (forall v | v in vs :: v.data.Ok? ==> v.data.value.slug == v.slug)
    && (forall i, j | 0 <= i < j < |vs| :: vs[i].slug != vs[j].slug)
    && (forall v, w | v in vs && w in vs :: v.pod == w.pod)
    && (forall v, w | v in vs && w in vs && v.noContainerSlug == w.noContainerSlug :: v.profile == w.profile)
  }

  ghost function Elements<T>(s: seq<T>): set<T> {
    set x | x in s
  }

  lemma ElementsSplit<T>(s: seq<T>)
    requires s != []
    ensures Elements(s) == Elements(s[..|s| - 1]) + {s[|s| - 1]}
  {
    assert s == s[..|s| - 1] + [s[|s| - 1]];
  }

  lemma OneEventPrefix(vs: seq<Visit>)
    requires OneEvent(vs) && vs != []
    ensures OneEvent(vs[..|vs| - 1])
    ensures forall v | v in vs[..|vs| - 1] :: v.slug != vs[|vs| - 1].slug
  {
  }

  ghost function Commands(subs: seq<Submission>): seq<Command> {
    seq(|subs|, i requires 0 <= i < |subs| => subs[i].command)
  }

  // ---------------------------------------------------------------- closed form of one event

  ghost function ActiveKeys(c: Caches, vs: set<Visit>): set<string> {
    set v | v in vs && Active(c, v) :: Key(v)
  }

  ghost function ActiveSlugs(c: Caches, vs: set<Visit>): set<string> {
    set v | v in vs && Active(c, v) :: v.slug
  }

  /** The caches `c'` follow from `c` and the set of visits alone. */
  ghost predicate Settled(c: Caches, vs: set<Visit>, c': Caches) {
    && c'.wlidAndImageID == c.wlidAndImageID + ActiveKeys(c, vs)
    && c'.slugToImageID.Keys == c.slugToImageID.Keys + ActiveSlugs(c, vs)
    && (forall v | v in vs && Active(c, v) :: c'.slugToImageID[v.slug] == v.data.value.imageID)
    && (forall s | s in c.slugToImageID && s !in ActiveSlugs(c, vs) :: c'.slugToImageID[s] == c.slugToImageID[s])
  }

  /** The visits that get past use case 5: the slug was cached, or its key is covered neither before nor by an earlier turn. */
  ghost function Turns(c: Caches, vs: seq<Visit>): (r: set<Visit>)
    ensures forall v | v in r :: v in vs && Active(c, v)
  {
    if vs == [] then {}
    else
      var v := vs[|vs| - 1];
      var before := vs[..|vs| - 1];
      Turns(c, before) +
      if Active(c, v) && (Cached(c, v) || (Key(v) !in c.wlidAndImageID
                                           && Key(v) !in ActiveKeys(c, Elements(before))))
      then {v} else {}
  }

  ghost function TurnCommands(vs: set<Visit>): set<Command> {
    set v | v in vs && v.data.Ok? :: CommandOf(v)
  }

  /** The caches after a turn: both are updated by every active turn, whatever it submits. */
  ghost function CachesAfter(c: Caches, v: Visit): Caches {
    if !Active(c, v) then c
    else Caches(c.slugToImageID[v.data.value.slug := v.data.value.imageID], c.wlidAndImageID + {Key(v)})
  }

  lemma VisitUpdatesCaches(s: State, v: Visit)
    ensures VisitSlug(s, v).caches == CachesAfter(s.caches, v)
  {
    if Active(s.caches, v) && Key(v) in s.caches.wlidAndImageID {
      assert s.caches.wlidAndImageID + {Key(v)} == s.caches.wlidAndImageID;
    }
  }

  lemma SettleOneMore(c: Caches, vs: set<Visit>, c': Caches, v: Visit)
    requires Settled(c, vs, c')
    requires v.data.Ok? ==> v.data.value.slug == v.slug
    requires forall w | w in vs :: w.slug != v.slug
    ensures Cached(c', v) == Cached(c, v) && Active(c', v) == Active(c, v)
    ensures Settled(c, vs + {v}, CachesAfter(c', v))
  {
    assert v.slug !in ActiveSlugs(c, vs);
    OneMoreActive(c, vs, v);
  }

  lemma OneMoreActive(c: Caches, vs: set<Visit>, v: Visit)
    ensures ActiveSlugs(c, vs + {v}) == ActiveSlugs(c, vs) + if Active(c, v) then {v.slug} else {}
    ensures ActiveKeys(c, vs + {v}) == ActiveKeys(c, vs) + if Active(c, v) then {Key(v)} else {}
  {
  }

  lemma {:induction false} EventSettles(c: Caches, vs: seq<Visit>)
    requires OneEvent(vs)
    ensures Settled(c, Elements(vs), HandleEvent(c, vs).caches)
  {
    if vs != [] {
      OneEventPrefix(vs);
      ElementsSplit(vs);
      EventSettles(c, vs[..|vs| - 1]);
      VisitUpdatesCaches(HandleEvent(c, vs[..|vs| - 1]), vs[|vs| - 1]);
      SettleOneMore(c, Elements(vs[..|vs| - 1]), HandleEvent(c, vs[..|vs| - 1]).caches, vs[|vs| - 1]);
    }
  }

  /** Earlier turns of the same event leave the later turns' slugs alone. */
  lemma LaterTurnSeesItsOwnSlug(c: Caches, vs: seq<Visit>)
    requires OneEvent(vs) && vs != []
    ensures var v, s := vs[|vs| - 1], HandleEvent(c, vs[..|vs| - 1]);
            && Cached(s.caches, v) == Cached(c, v) && Active(s.caches, v) == Active(c, v)
            && (v in Turns(c, vs) <==> Active(c, v) && (Cached(c, v) || Key(v) !in s.caches.wlidAndImageID))
  {
    var before, v := vs[..|vs| - 1], vs[|vs| - 1];
    OneEventPrefix(vs);
    EventSettles(c, before);
    SettleOneMore(c, Elements(before), HandleEvent(c, before).caches, v);
    assert v !in Turns(c, before);
  }

  lemma {:induction false} EventScansProfiles(c: Caches, vs: seq<Visit>)
    requires OneEvent(vs)
    ensures forall n :: n in HandleEvent(c, vs).scanned <==>
                        exists v :: v in Turns(c, vs) && v.profile.Some? && v.noContainerSlug == n
  {
    if vs != [] {
      OneEventPrefix(vs);
      EventScansProfiles(c, vs[..|vs| - 1]);
      LaterTurnSeesItsOwnSlug(c, vs);
    }
  }

  /** One event submits the commands of its turns, each exactly once: visits that share a no-container slug
      with a profile share one command. */
  lemma {:induction false} EventSubmits(c: Caches, vs: seq<Visit>)
    requires OneEvent(vs)
    ensures multiset(Commands(HandleEvent(c, vs).submitted)) == multiset(TurnCommands(Turns(c, vs)))
  {
    if vs != [] {
      var before, v := vs[..|vs| - 1], vs[|vs| - 1];
      OneEventPrefix(vs);
      EventSubmits(c, before);
      EventScansProfiles(c, before);
      LaterTurnSeesItsOwnSlug(c, vs);
      var s, turns := HandleEvent(c, before), Turns(c, before);
      SubmitsOneMore(s, v);
      if v in Turns(c, vs) {
        assert Turns(c, vs) == turns + {v};
        AddTurn(turns, v, vs);
      } else {
        assert Turns(c, vs) == turns;
      }
    }
  }

  /** What the commands say: an event submits the scan of an image exactly if a visit with these data, past use cases
      5 and 6, has no profile, and the scan of a profile exactly if such a visit has it. */
  lemma SubmittedCommands(c: Caches, vs: seq<Visit>)
    requires OneEvent(vs)
    ensures forall data, pod :: ScanImage(data, pod) in Commands(HandleEvent(c, vs).submitted) <==>
                                exists v :: v in Turns(c, vs) && v.profile.None? && v.data == Ok(data) && v.pod == pod
    ensures forall wlid, name, ns ::
              ScanApplicationProfile(wlid, name, ns) in Commands(HandleEvent(c, vs).submitted) <==>
              exists v :: v in Turns(c, vs) && v.profile == Some(wlid) && v.noContainerSlug == name && v.pod.namespace == ns
  {
    EventSubmits(c, vs);
    var submitted := Commands(HandleEvent(c, vs).submitted);
    assert forall x :: x in submitted <==> x in multiset(submitted);
    assert forall x :: x in submitted <==> exists v :: v in Turns(c, vs) && CommandOf(v) == x;
  }

  lemma SubmitsOneMore(s: State, v: Visit)
    ensures Commands(VisitSlug(s, v).submitted) == Commands(s.submitted) +
              if Active(s.caches, v) && (Cached(s.caches, v) || Key(v) !in s.caches.wlidAndImageID)
                 && v.noContainerSlug !in s.scanned
              then [CommandOf(v)] else []
  {
  }

  lemma AddTurn(turns: set<Visit>, v: Visit, vs: seq<Visit>)
    requires OneEvent(vs) && v in vs && v.data.Ok? && v !in turns
    requires forall w | w in turns :: w in vs && w.data.Ok?
    ensures (exists w :: w in turns && w.profile.Some? && w.noContainerSlug == v.noContainerSlug)
            ==> TurnCommands(turns + {v}) == TurnCommands(turns)
    ensures !(exists w :: w in turns && w.profile.Some? && w.noContainerSlug == v.noContainerSlug)
            ==> multiset(TurnCommands(turns + {v})) == multiset(TurnCommands(turns)) + multiset{CommandOf(v)}
  {
    if w :| w in turns && w.profile.Some? && w.noContainerSlug == v.noContainerSlug {
      assert CommandOf(w) == CommandOf(v);
      assert TurnCommands(turns + {v}) == TurnCommands(turns);
    } else {
      assert CommandOf(v) !in TurnCommands(turns);
      assert TurnCommands(turns + {v}) == TurnCommands(turns) + {CommandOf(v)};
    }
  }
}
