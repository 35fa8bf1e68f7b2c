/** The image scan of a whole scope (HandleImageScanningScopedRequest in mainhandler/handlerequests.go): every
    container of every running pod is scanned, but no slug twice within one request. */
module ScopedScan {
  import opened Wrappers
  import opened ContainerUtils
  import opened ScanDedup

  /** A pod as it comes out of the pager. `convertible` and `instanceIDs` are the outcomes of the two conversions;
      `mature` says that it has a parent or is older than the guard time. */
  datatype ListedPod = ListedPod(
    pod: Pod,
    running: bool,
    convertible: bool,
    instanceIDs: Result<seq<InstanceID>>,
    mature: bool,
    parent: Result<string>)

  /** What paging through one namespace delivers: pods, possibly some of them more than once, and how it ended. */
  datatype Listing = Listing(namespace: string, pods: seq<ListedPod>, end: Result<()>)

  /** A command run for the container with slug `slug`; on success, slug `marks` counts as scanned. */
  datatype Attempt = Attempt(command: Command, slug: string, marks: string, outcome: Result<()>)

  datatype Status = NoStatus | Failed(errors: set<string>) | Succeeded

  /** The answers of the outside: the application profile for a no-container slug in a namespace, and the outcome
      of running a command; both may change from one attempt to the next. */
  datatype World = World(profile: (nat, string, string) -> Option<string>, run: (nat, Command) -> Result<()>)

  ghost predicate Reached(skip: set<string>, l: Listing, p: ListedPod, id: InstanceID) {
    && l.namespace !in skip && p in l.pods && p.running && p.convertible && p.instanceIDs.Ok? && p.mature
    && id in p.instanceIDs.value && PodToContainerData(p.pod, id, p.parent).Ok?
  }

  /** The container was scanned by itself, or the profile for its no-container slug was. */
  ghost predicate Scanned(attempts: seq<Attempt>, slug: string, noContainerSlug: string) {
    exists a :: a in attempts && a.outcome.Ok? &&
                a.marks == if a.command.ScanImage? then slug else noContainerSlug
  }

  /** The scan of a profile marked the slug, which is some other container's no-container slug. */
  ghost predicate Shadowed(attempts: seq<Attempt>, slug: string) {
    exists a :: a in attempts && a.outcome.Ok? && a.command.ScanApplicationProfile? && a.marks == slug
  }

  /** No container's slug is the no-container slug of a container. */
  ghost predicate SlugsApart(skip: set<string>, listings: seq<Listing>) {
    forall l, p, id, l', p', id' |
      l in listings && l' in listings && Reached(skip, l, p, id) && Reached(skip, l', p', id') :: id.slug != id'.noContainerSlug
  }

  ghost predicate Refused(attempts: seq<Attempt>, slug: string) {
    exists a :: a in attempts && a.outcome.Err? && a.slug == slug
  }

  /** Covered, or on record as failed, or passed over because of a shared slug. */
  ghost predicate Attended(attempts: seq<Attempt>, id: InstanceID) {
    Scanned(attempts, id.slug, id.noContainerSlug) || Refused(attempts, id.slug) || Shadowed(attempts, id.slug)
  }

  ghost function ErrorsOf(attempts: seq<Attempt>): set<string> {
    set a | a in attempts && a.outcome.Err? :: a.outcome.error
  }

  /** What the scanned slugs and the errors say about the attempts: a slug that was marked is not tried again. */
  ghost predicate Recorded(slugs: set<string>, errors: set<string>, attempts: seq<Attempt>) {
    && (forall s :: s in slugs <==> exists a :: a in attempts && a.outcome.Ok? && a.marks == s)
    && ErrorsOf(attempts) <= errors
    && (forall i, j | 0 <= i < j < |attempts| && attempts[i].outcome.Ok? :: attempts[j].slug != attempts[i].marks)
    && (forall a | a in attempts :: WellMarked(a))
  }

  ghost predicate WellMarked(a: Attempt) {
    match a.command
    case ScanImage(data, _) => a.slug == a.marks == data.slug
    case ScanApplicationProfile(_, name, _) => a.marks == name
  }

  lemma OneMoreRecorded(slugs: set<string>, errors: set<string>, attempts: seq<Attempt>, a: Attempt)
    requires Recorded(slugs, errors, attempts) && a.slug !in slugs && WellMarked(a)
    ensures Recorded(if a.outcome.Ok? then slugs + {a.marks} else slugs,
                     if a.outcome.Ok? then errors else errors + {a.outcome.error}, attempts + [a])
  {
    assert forall x :: x in attempts + [a] <==> x in attempts || x == a;
    forall i | 0 <= i < |attempts| && attempts[i].outcome.Ok?
      ensures attempts[i].marks in slugs
    {
      assert attempts[i] in attempts;
    }
  }

  /** Attempt number `k` is what the request owes to container `id` of pod `p`: the scan of the profile that the
      world has for it, or else of its image; and its outcome is what running the command led to. */
  ghost predicate Serves(world: World, k: nat, a: Attempt, ns: string, p: ListedPod, id: InstanceID) {
    && a.slug == id.slug
    && PodToContainerData(p.pod, id, p.parent).Ok?
    && a.outcome == world.run(k, a.command)
    && match world.profile(k, ns, id.noContainerSlug)
       case Some(wlid) => a.command == ScanApplicationProfile(wlid, id.noContainerSlug, ns) && a.marks == id.noContainerSlug
       case None => a.command == ScanImage(PodToContainerData(p.pod, id, p.parent).value, p.pod) && a.marks == id.slug
  }

  ghost predicate ServesPod(world: World, k: nat, a: Attempt, ns: string, p: ListedPod) {
    && p.running && p.convertible && p.instanceIDs.Ok? && p.mature
    && exists id :: id in p.instanceIDs.value && Serves(world, k, a, ns, p, id)
  }

  ghost predicate Owed(world: World, skip: set<string>, listings: seq<Listing>, k: nat, a: Attempt) {
    exists l, p, id :: l in listings && Reached(skip, l, p, id) && Serves(world, k, a, l.namespace, p, id)
  }

  /** The turn of the innermost loop for one container. */
  method ScanContainer(world: World, ns: string, p: ListedPod, id: InstanceID,
                       slugs0: set<string>, errors0: set<string>, attempts0: seq<Attempt>)
    returns (slugs: set<string>, errors: set<string>, attempts: seq<Attempt>)
    requires Recorded(slugs0, errors0, attempts0)
    ensures Recorded(slugs, errors, attempts)
    ensures attempts == attempts0 ||
            (|attempts| == |attempts0| + 1 && attempts0 == attempts[..|attempts0|]
             && Serves(world, |attempts0|, attempts[|attempts0|], ns, p, id))
    ensures Grown(errors0, attempts0, errors, attempts)
    ensures PodToContainerData(p.pod, id, p.parent).Ok? ==> Attended(attempts, id)
  {
    slugs, errors, attempts := slugs0, errors0, attempts0;
    if id.slug in slugs {
      return;
    }
    var containerData := PodToContainerData(p.pod, id, p.parent);
    if containerData.Err? {
      return;
    }
    var profile := world.profile(|attempts|, ns, id.noContainerSlug);
    var command, marks;
    match profile {
      case Some(wlid) => command, marks := ScanApplicationProfile(wlid, id.noContainerSlug, ns), id.noContainerSlug;
      case None => command, marks := ScanImage(containerData.value, p.pod), id.slug;
    }
    var outcome := world.run(|attempts|, command);
    ghost var a := Attempt(command, id.slug, marks, outcome);
    OneMoreRecorded(slugs, errors, attempts, a);
    attempts := attempts + [Attempt(command, id.slug, marks, outcome)];
    assert a in attempts;
    match outcome {
      case Err(e) => errors := errors + {e};
      case Ok(_) => slugs := slugs + {marks};
    }
  }

  /** The containers of the pod that are reached, if any are, were attended to. */
  ghost predicate PodAttended(attempts: seq<Attempt>, p: ListedPod) {
    p.running && p.convertible && p.instanceIDs.Ok? && p.mature ==>
      forall id | id in p.instanceIDs.value && PodToContainerData(p.pod, id, p.parent).Ok? :: Attended(attempts, id)
  }

  ghost function Containers(p: ListedPod): nat {
    if p.instanceIDs.Ok? then |p.instanceIDs.value| else 0
  }

  ghost function ContainersOf(pods: seq<ListedPod>): nat {
    if pods == [] then 0 else ContainersOf(pods[..|pods| - 1]) + Containers(pods[|pods| - 1])
  }

  ghost function ContainersIn(listings: seq<Listing>): nat {
    if listings == [] then 0
    else ContainersIn(listings[..|listings| - 1]) + ContainersOf(listings[|listings| - 1].pods)
  }

  lemma ContainersInNext(listings: seq<Listing>, i: nat)
    requires i < |listings|
    ensures ContainersIn(listings[..i + 1]) == ContainersIn(listings[..i]) + ContainersOf(listings[i].pods)
  {
    assert listings[..i + 1][..i] == listings[..i];
  }

  lemma ContainersOfNext(pods: seq<ListedPod>, i: nat)
    requires i < |pods|
    ensures ContainersOf(pods[..i + 1]) == ContainersOf(pods[..i]) + Containers(pods[i])
  {
    assert pods[..i + 1][..i] == pods[..i];
  }

  method ScanPod(world: World, ns: string, p: ListedPod, slugs0: set<string>, errors0: set<string>, attempts0: seq<Attempt>)
    returns (slugs: set<string>, errors: set<string>, attempts: seq<Attempt>)
    requires Recorded(slugs0, errors0, attempts0)
    ensures Recorded(slugs, errors, attempts) && Grown(errors0, attempts0, errors, attempts)
    ensures PodAttended(attempts, p) && |attempts| <= |attempts0| + Containers(p)
    ensures forall k | |attempts0| <= k < |attempts| :: ServesPod(world, k, attempts[k], ns, p)
  {
    slugs, errors, attempts := slugs0, errors0, attempts0;
    if !p.running || !p.convertible || p.instanceIDs.Err? || !p.mature {
      return;
    }
    var instanceIDs := p.instanceIDs.value;
    for i := 0 to |instanceIDs|
      invariant Recorded(slugs, errors, attempts) && Grown(errors0, attempts0, errors, attempts)
      invariant AllServe(world, ns, p, attempts, |attempts0|)
      invariant AttendedUpTo(attempts, p, i)
      invariant |attempts| <= |attempts0| + i
    {
      ghost var errors', attempts' := errors, attempts;
      slugs, errors, attempts := ScanContainer(world, ns, p, instanceIDs[i], slugs, errors, attempts);
      GrownAgain(errors0, attempts0, errors', attempts', errors, attempts);
      AttendedNext(attempts', attempts, p, i);
      ServeNext(world, ns, p, attempts', attempts, |attempts0|, i);
    }
  }

  ghost predicate AllServe(world: World, ns: string, p: ListedPod, attempts: seq<Attempt>, from: nat) {
    forall k | from <= k < |attempts| :: ServesPod(world, k, attempts[k], ns, p)
  }

  lemma ServeNext(world: World, ns: string, p: ListedPod, attempts: seq<Attempt>, more: seq<Attempt>, from: nat, i: nat)
    requires p.running && p.convertible && p.instanceIDs.Ok? && p.mature && i < |p.instanceIDs.value|
    requires AllServe(world, ns, p, attempts, from)
    requires more == attempts
             || (|more| == |attempts| + 1 && attempts == more[..|attempts|]
                 && Serves(world, |attempts|, more[|attempts|], ns, p, p.instanceIDs.value[i]))
    ensures AllServe(world, ns, p, more, from)
  {
    forall k | from <= k < |more|
      ensures ServesPod(world, k, more[k], ns, p)
    {
      if k < |attempts| {
        assert more[k] == attempts[k];
      } else {
        assert p.instanceIDs.value[i] in p.instanceIDs.value;
      }
    }
  }

  ghost predicate AttendedUpTo(attempts: seq<Attempt>, p: ListedPod, n: nat)
    requires p.instanceIDs.Ok?
  {
    n <= |p.instanceIDs.value| &&
    forall j | 0 <= j < n && PodToContainerData(p.pod, p.instanceIDs.value[j], p.parent).Ok? ::
      Attended(attempts, p.instanceIDs.value[j])
  }

  lemma AttendedNext(attempts: seq<Attempt>, more: seq<Attempt>, p: ListedPod, i: nat)
    requires p.instanceIDs.Ok? && i < |p.instanceIDs.value| && AttendedUpTo(attempts, p, i) && attempts <= more
    requires PodToContainerData(p.pod, p.instanceIDs.value[i], p.parent).Ok? ==> Attended(more, p.instanceIDs.value[i])
    ensures AttendedUpTo(more, p, i + 1)
  {
    forall j | 0 <= j < i && PodToContainerData(p.pod, p.instanceIDs.value[j], p.parent).Ok?
      ensures Attended(more, p.instanceIDs.value[j])
    {
      AttendedMono(attempts, more, p.instanceIDs.value[j]);
    }
  }

  /** Attempts were added, and errors only of attempts. */
  ghost predicate Grown(errors0: set<string>, attempts0: seq<Attempt>, errors: set<string>, attempts: seq<Attempt>) {
    attempts0 <= attempts && errors0 <= errors <= errors0 + ErrorsOf(attempts)
  }

  lemma GrownAgain(errors0: set<string>, attempts0: seq<Attempt>, errors1: set<string>, attempts1: seq<Attempt>,
                   errors2: set<string>, attempts2: seq<Attempt>)
    requires Grown(errors0, attempts0, errors1, attempts1) && Grown(errors1, attempts1, errors2, attempts2)
    ensures Grown(errors0, attempts0, errors2, attempts2)
  {
    MoreErrors(attempts1, attempts2);
  }

  lemma MoreErrors(attempts: seq<Attempt>, more: seq<Attempt>)
    requires attempts <= more
    ensures ErrorsOf(attempts) <= ErrorsOf(more)
  {
    assert forall a :: a in attempts ==> a in more;
  }

  lemma AttendedMono(attempts: seq<Attempt>, more: seq<Attempt>, id: InstanceID)
    requires Attended(attempts, id) && attempts <= more
    ensures Attended(more, id)
  {
    assert forall a :: a in attempts ==> a in more;
  }

  ghost function EndErrors(listings: seq<Listing>, skip: set<string>): set<string> {
    set l | l in listings && l.namespace !in skip && l.end.Err? :: l.end.error
  }

  lemma EndErrorsNext(listings: seq<Listing>, i: nat, skip: set<string>)
    requires i < |listings|
    ensures EndErrors(listings[..i + 1], skip) == EndErrors(listings[..i], skip)
              + if listings[i].namespace !in skip && listings[i].end.Err? then {listings[i].end.error} else {}
  {
    assert forall l :: l in listings[..i + 1] <==> l in listings[..i] || l == listings[i];
  }

  lemma NoErrorsMeaning(attempts: seq<Attempt>, listings: seq<Listing>, skip: set<string>)
    ensures ErrorsOf(attempts) + EndErrors(listings, skip) == {} <==>
            (forall a | a in attempts :: a.outcome.Ok?) && (forall l | l in listings && l.namespace !in skip :: l.end.Ok?)
  {
    if a :| a in attempts && a.outcome.Err? {
      assert a.outcome.error in ErrorsOf(attempts);
    }
    if l :| l in listings && l.namespace !in skip && l.end.Err? {
      assert l.end.error in EndErrors(listings, skip);
    }
  }

  lemma ImageScansMark(attempts: seq<Attempt>)
    requires forall a | a in attempts :: WellMarked(a)
    ensures forall i | 0 <= i < |attempts| && attempts[i].command.ScanImage? :: attempts[i].marks == attempts[i].slug
  {
    assert forall i | 0 <= i < |attempts| :: attempts[i] in attempts;
  }

  lemma NotShadowed(world: World, skip: set<string>, listings: seq<Listing>, attempts: seq<Attempt>)
    requires forall k | 0 <= k < |attempts| :: Owed(world, skip, listings, k, attempts[k])
    ensures SlugsApart(skip, listings) ==>
              forall l, p, id | l in listings && Reached(skip, l, p, id) :: !Shadowed(attempts, id.slug)
  {
    if SlugsApart(skip, listings) {
      forall k | 0 <= k < |attempts| && attempts[k].command.ScanApplicationProfile?
        ensures forall l, p, id | l in listings && Reached(skip, l, p, id) :: id.slug != attempts[k].marks
      {
        var l', p', id' :| l' in listings && Reached(skip, l', p', id')
                           && Serves(world, k, attempts[k], l'.namespace, p', id');
      }
    }
  }

  /** `namespaces` is the outcome of determining the namespaces of the request. */
  method HandleImageScanningScopedRequest(
    world: World, requestID: string, namespaces: Result<seq<Listing>>, skip: set<string>)
    returns (attempts: seq<Attempt>, status: Status)
    // at most one successful image scan a slug, and nothing is tried for a slug once it is marked
    ensures forall i, j | 0 <= i < j < |attempts| && attempts[i].outcome.Ok? :: attempts[j].slug != attempts[i].marks
    ensures forall i, j | 0 <= i < j < |attempts| && attempts[i].outcome.Ok? && attempts[i].command.ScanImage? ::
              attempts[j].slug != attempts[i].slug
    // every attempt is made for a container that is reached, and runs the command for its profile or its image
    ensures forall k | 0 <= k < |attempts| :: namespaces.Ok? && Owed(world, skip, namespaces.value, k, attempts[k])
    // at most one attempt each time a container is listed
    ensures |attempts| <= if namespaces.Ok? then ContainersIn(namespaces.value) else 0
    // every resolvable container that is reached was scanned, or its scan failed and the status says so
    ensures requestID != "" && namespaces.Ok? ==>
              forall l, p, id | l in namespaces.value && Reached(skip, l, p, id) :: Attended(attempts, id)
    ensures namespaces.Ok? && SlugsApart(skip, namespaces.value) ==>
              forall l, p, id | l in namespaces.value && Reached(skip, l, p, id) :: !Shadowed(attempts, id.slug)
    ensures status.Succeeded? && namespaces.Ok? ==>
              forall l, p, id | l in namespaces.value && Reached(skip, l, p, id) ::
                Scanned(attempts, id.slug, id.noContainerSlug) || Shadowed(attempts, id.slug)
    ensures status.Succeeded? <==> requestID != "" && namespaces.Ok?
                                   && (forall a | a in attempts :: a.outcome.Ok?)
                                   && (forall l | l in namespaces.value && l.namespace !in skip :: l.end.Ok?)
    // otherwise the status names every error: of the attempts, and of the namespaces whose listing broke off
    ensures requestID == "" <==> status.NoStatus?
    ensures requestID != "" && namespaces.Err? ==> status == Failed({namespaces.error})
    ensures requestID != "" && namespaces.Ok? && !status.Succeeded? ==>
              status == Failed((set a | a in attempts && a.outcome.Err? :: a.outcome.error)
                               + set l | l in namespaces.value && l.namespace !in skip && l.end.Err? :: l.end.error)
  {
    attempts := [];
    if requestID == "" {
      return attempts, NoStatus;
    }
    if namespaces.Err? {
      return attempts, Failed({namespaces.error});
    }
    var listings := namespaces.value;
    var errors;
    errors, attempts := ScanListings(world, listings, skip);
    NoErrorsMeaning(attempts, listings, skip);
    NotShadowed(world, skip, listings, attempts);
    status := if |errors| > 0 then Failed(errors) else Succeeded;
    ImageScansMark(attempts);
  }

  /** The loop over the namespaces. */
  method ScanListings(world: World, listings: seq<Listing>, skip: set<string>)
    returns (errors: set<string>, attempts: seq<Attempt>)
    ensures exists slugs :: Recorded(slugs, errors, attempts)
    ensures forall k | 0 <= k < |attempts| :: Owed(world, skip, listings, k, attempts[k])
    ensures forall l, p, id | l in listings && Reached(skip, l, p, id) :: Attended(attempts, id)
    ensures errors == ErrorsOf(attempts) + EndErrors(listings, skip)
    ensures |attempts| <= ContainersIn(listings)
  {
    var slugs := {};
    errors, attempts := {}, [];
    for i := 0 to |listings|
      invariant Recorded(slugs, errors, attempts)
      invariant forall k | 0 <= k < |attempts| :: Owed(world, skip, listings, k, attempts[k])
      invariant forall l, p, id | l in listings[..i] && Reached(skip, l, p, id) :: Attended(attempts, id)
      invariant errors == ErrorsOf(attempts) + EndErrors(listings[..i], skip)
      invariant |attempts| <= ContainersIn(listings[..i])
    {
      ContainersInNext(listings, i);
      assert forall l :: l in listings[..i + 1] <==> l in listings[..i] || l == listings[i];
      EndErrorsNext(listings, i, skip);
      if listings[i].namespace in skip {
        continue;
      }
      ghost var before := attempts;
      slugs, errors, attempts := ScanListing(world, listings[i], slugs, errors, attempts);
      assert forall a | a in before :: a in attempts;
      forall k | 0 <= k < |attempts|
        ensures Owed(world, skip, listings, k, attempts[k])
      {
        if k < |before| {
          assert attempts[k] == before[k];
        } else {
          OwedToListing(world, skip, listings, i, k, attempts[k]);
        }
      }
      forall l, p, id | l in listings[..i + 1] && Reached(skip, l, p, id)
        ensures Attended(attempts, id)
      {
        if l in listings[..i] {
          AttendedMono(before, attempts, id);
        }
      }
    }
    assert listings[..|listings|] == listings;
  }

  /** Attempt number `k` serves a pod of the listing. */
  ghost predicate ServesListing(world: World, l: Listing, k: nat, a: Attempt) {
    exists p :: p in l.pods && ServesPod(world, k, a, l.namespace, p)
  }

  lemma OwedToListing(world: World, skip: set<string>, listings: seq<Listing>, i: nat, k: nat, a: Attempt)
    requires i < |listings| && listings[i].namespace !in skip && ServesListing(world, listings[i], k, a)
    ensures Owed(world, skip, listings, k, a)
  {
    var l := listings[i];
    var p :| p in l.pods && ServesPod(world, k, a, l.namespace, p);
    var id :| id in p.instanceIDs.value && Serves(world, k, a, l.namespace, p, id);
    assert l in listings && Reached(skip, l, p, id);
  }

  method ScanListing(world: World, l: Listing, slugs0: set<string>, errors0: set<string>, attempts0: seq<Attempt>)
    returns (slugs: set<string>, errors: set<string>, attempts: seq<Attempt>)
    requires Recorded(slugs0, errors0, attempts0)
    ensures Recorded(slugs, errors, attempts) && attempts0 <= attempts && errors0 <= errors
    ensures forall skip, p, id | Reached(skip, l, p, id) :: Attended(attempts, id)
    ensures l.end.Err? ==> l.end.error in errors
    ensures forall k | |attempts0| <= k < |attempts| :: ServesListing(world, l, k, attempts[k])
    ensures |attempts| <= |attempts0| + ContainersOf(l.pods)
    ensures errors <= errors0 + ErrorsOf(attempts) + if l.end.Err? then {l.end.error} else {}
  {
    slugs, errors, attempts := slugs0, errors0, attempts0;
    for i := 0 to |l.pods|
      invariant Recorded(slugs, errors, attempts) && Grown(errors0, attempts0, errors, attempts)
      invariant forall k | |attempts0| <= k < |attempts| :: ServesListing(world, l, k, attempts[k])
      invariant forall skip, p, id | p in l.pods[..i] && Reached(skip, l, p, id) :: Attended(attempts, id)
      invariant |attempts| <= |attempts0| + ContainersOf(l.pods[..i])
    {
      ContainersOfNext(l.pods, i);
      assert forall p :: p in l.pods[..i + 1] <==> p in l.pods[..i] || p == l.pods[i];
      ghost var errors', before := errors, attempts;
      slugs, errors, attempts := ScanPod(world, l.namespace, l.pods[i], slugs, errors, attempts);
      GrownAgain(errors0, attempts0, errors', before, errors, attempts);
      forall k | |before| <= k < |attempts|
        ensures ServesListing(world, l, k, attempts[k])
      {
        assert l.pods[i] in l.pods && ServesPod(world, k, attempts[k], l.namespace, l.pods[i]);
      }
      forall skip, p, id | p in l.pods[..i + 1] && Reached(skip, l, p, id)
        ensures Attended(attempts, id)
      {
        if p in l.pods[..i] {
          AttendedMono(before, attempts, id);
        } else {
          assert PodAttended(attempts, p);
        }
      }
    }
    assert l.pods[..|l.pods|] == l.pods;
    if l.end.Err? {
      errors := errors + {l.end.error};
    }
  }
}
