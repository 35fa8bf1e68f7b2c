/** One cycle of the service discovery of servicehandler/servicediscovery.go: services are listed and handed to a
    pool of scanners, a WaitGroup waits for all of them, then the result objects of services that were not
    listed are deleted. */
module ServiceDiscovery {
  import opened Wrappers
  import opened Slashes

  /** A service, and the result object stored under the same namespace and name. */
  datatype Name = Name(namespace: string, name: string)

  function Key(n: Name): string {
    n.namespace + "/" + n.name
  }

  datatype Phase = Listing | Waiting | Deleting(todo: seq<Name>) | Finished

  /** `jobs` were accepted by the pool and not finished; `lost` counts the invocations that failed. `listed`,
      `applied` and `undeleted` record what happened in this cycle: the services listed, those whose result was
      applied, and the stale objects that stayed because they were not listed for deletion or it failed. */
  datatype State = State(
    services: seq<Name>,
    listed: set<Name>,
    current: set<string>,
    jobs: seq<Name>,
    waitGroup: int,
    lost: nat,
    phase: Phase,
    objects: set<Name>,
    applied: set<Name>,
    undeleted: set<Name>)

  datatype Action =
    | ListNext(invoked: bool)
    | ListEnds
    | Scan(i: nat, applied: bool)
    | BeginDelete(snapshot: seq<Name>)
    | DeleteNext(deleted: bool)
    | Finish

  /** Some of the names, each once: paging through the objects may end early. */
  ghost predicate Lists(order: seq<Name>, names: set<Name>) {
    (forall n | n in order :: n in names) && (forall i, j | 0 <= i < j < |order| :: order[i] != order[j])
  }

  ghost predicate Enabled(s: State, a: Action) {
    match a
    case ListNext(_) => s.phase.Listing? && s.services != []
    case ListEnds => s.phase.Listing?
    case Scan(i, _) => i < |s.jobs|
    case BeginDelete(snapshot) => s.phase.Waiting? && s.waitGroup == 0 && Lists(snapshot, s.objects)
    case DeleteNext(_) => s.phase.Deleting? && s.phase.todo != []
    case Finish => s.phase.Deleting? && s.phase.todo == []
  }

  /** Paging through the services may end early: the listing's error is ignored. A scan ends its job whether or not
      its result could be applied. */
  ghost function Step(s: State, a: Action): State
    requires Enabled(s, a)
  {
    match a
    case ListNext(invoked) =>
      var n := s.services[0];
      s.(services := s.services[1..], listed := s.listed + {n}, current := s.current + {Key(n)},
         waitGroup := s.waitGroup + 1,
         jobs := if invoked then s.jobs + [n] else s.jobs, lost := if invoked then s.lost else s.lost + 1)
    case ListEnds => s.(phase := Waiting)
    case Scan(i, applied) =>
      var n := s.jobs[i];
      s.(jobs := s.jobs[..i] + s.jobs[i + 1..], waitGroup := s.waitGroup - 1,
         objects := if applied then s.objects + {n} else s.objects,
         applied := if applied then s.applied + {n} else s.applied)
    case BeginDelete(snapshot) =>
      s.(phase := Deleting(snapshot), undeleted := set n | n in s.objects && n !in snapshot && Key(n) !in s.current)
    case DeleteNext(deleted) =>
      var n := s.phase.todo[0];
      var t := s.(phase := Deleting(s.phase.todo[1..]));
      if Key(n) in s.current then t
      else if deleted then t.(objects := s.objects - {n})
      else t.(undeleted := s.undeleted + {n})
    case Finish => s.(phase := Finished)
  }

  ghost function Begin(services: seq<Name>, objects: set<Name>): State {
    State(services, {}, {}, [], 0, 0, Listing, objects, {}, {})
  }

  ghost function Exec(s: State, acts: seq<Action>): Option<State>
    decreases |acts|
  {
    if acts == [] then Some(s)
    else if !Enabled(s, acts[0]) then None
    else Exec(Step(s, acts[0]), acts[1..])
  }

  /** Everything up to the delete phase only adds objects; from then on nothing is scanned or applied. `before` are
      the objects the cycle started with. */
  ghost predicate Invariant(s: State, before: set<Name>) {
    && s.waitGroup == |s.jobs| + s.lost
    && (forall k :: k in s.current <==> exists n :: n in s.listed && Key(n) == k)
    && (forall n | n in s.jobs :: n in s.listed) && s.applied <= s.listed
    && (match s.phase
        case Listing => s.objects == before + s.applied && s.undeleted == {}
        case Waiting => s.objects == before + s.applied && s.undeleted == {}
        case Deleting(todo) =>
          && s.jobs == [] && s.lost == 0
          && (forall i, j | 0 <= i < j < |todo| :: todo[i] != todo[j])
          && (forall n | n in todo :: n in s.objects && n !in s.undeleted)
          && Remaining(s, before, todo)
        case Finished => s.jobs == [] && s.lost == 0 && Remaining(s, before, []))
  }

  /** Apart from `todo`, the objects left are those whose key was listed and those that could not be deleted. */
  ghost predicate Remaining(s: State, before: set<Name>, todo: seq<Name>) {
    && s.objects <= before + s.applied
    && (forall n | n in before + s.applied && Key(n) in s.current :: n in s.objects)
    && (forall n | n in s.undeleted :: Key(n) !in s.current && n in s.objects)
    && (forall n | n in s.objects :: n in todo || Key(n) in s.current || n in s.undeleted)
  }

  lemma StepInvariant(s: State, before: set<Name>, a: Action)
    requires Invariant(s, before) && Enabled(s, a)
    ensures Invariant(Step(s, a), before)
  {
    var s' := Step(s, a);
    match a {
      case ListNext(_) =>
        forall k
          ensures k in s'.current <==> exists n :: n in s'.listed && Key(n) == k
        {
          assert s.services[0] in s'.listed;
        }
      case Scan(i, _) =>
        assert s.jobs[i] in s.jobs;
      case DeleteNext(_) =>
        assert s.phase.todo[0] in s.phase.todo;
        assert forall n :: n in s.phase.todo <==> n == s.phase.todo[0] || n in s.phase.todo[1..];
      case _ =>
    }
  }

  lemma {:induction false} ExecInvariant(s: State, before: set<Name>, acts: seq<Action>)
    requires Invariant(s, before) && Exec(s, acts).Some?
    ensures Invariant(Exec(s, acts).value, before)
    decreases |acts|
  {
    if acts != [] {
      StepInvariant(s, before, acts[0]);
      ExecInvariant(Step(s, acts[0]), before, acts[1..]);
    }
  }

  ghost predicate KubernetesNames(names: set<Name>) {
    forall n | n in names :: '/' !in n.namespace && '/' !in n.name
  }

  lemma KeyIdentifies(a: Name, b: Name)
    requires KubernetesNames({a, b}) && Key(a) == Key(b)
    ensures a == b
  {
    SplitAtSlash(a.namespace, b.namespace, a.name, b.name);
  }

  ghost predicate CycleEnds(services: seq<Name>, before: set<Name>, acts: seq<Action>, s: State) {
    Exec(Begin(services, before), acts) == Some(s) && s.phase.Finished?
  }

  // ---------------------------------------------------------------- what the records say about the actions

  datatype Deed = ResultApplied | ServiceListed | ObjectDeleted

  /** The action, taken in state `s`, is a successful scan of service `n`, the listing that comes across it, or the
      successful deletion of its object. */
  ghost predicate Does(s: State, a: Action, deed: Deed, n: Name) {
    match deed
    case ResultApplied => a.Scan? && a.applied && a.i < |s.jobs| && s.jobs[a.i] == n
    case ServiceListed => a.ListNext? && s.services != [] && s.services[0] == n
    case ObjectDeleted =>
      && a.DeleteNext? && a.deleted && s.phase.Deleting? && s.phase.todo != [] && s.phase.todo[0] == n
      && n.namespace + "/" + n.name !in s.current
  }

  ghost predicate Happens(s: State, acts: seq<Action>, deed: Deed, n: Name)
    decreases |acts|
  {
    acts != [] && Enabled(s, acts[0]) && (Does(s, acts[0], deed, n) || Happens(Step(s, acts[0]), acts[1..], deed, n))
  }

  /** The records are what they are called: applied are the services that a scan of the run applied a result for,
      listed those that the listing came across; an object is new only by such a scan, and gone only by a successful
      deletion. */
  lemma {:induction false} RecordsExactly(s: State, acts: seq<Action>, n: Name)
    requires Exec(s, acts).Some?
    ensures var t := Exec(s, acts).value;
            && (n in t.applied <==> n in s.applied || Happens(s, acts, ResultApplied, n))
            && (n in t.listed <==> n in s.listed || Happens(s, acts, ServiceListed, n))
            && (n in t.objects ==> n in s.objects || Happens(s, acts, ResultApplied, n))
            && (n in s.objects && n !in t.objects ==> Happens(s, acts, ObjectDeleted, n))
            && (Happens(s, acts, ResultApplied, n) && !Happens(s, acts, ObjectDeleted, n) ==> n in t.objects)
    decreases |acts|
  {
    if acts != [] {
      RecordsExactly(Step(s, acts[0]), acts[1..], n);
    }
  }

  /** From the delete phase on, an object is gone exactly if it was deleted. */
  lemma {:induction false} GoneExactly(s: State, before: set<Name>, acts: seq<Action>, n: Name)
    requires Invariant(s, before) && (s.phase.Deleting? || s.phase.Finished?) && Exec(s, acts).Some?
    ensures n in Exec(s, acts).value.objects <==> n in s.objects && !Happens(s, acts, ObjectDeleted, n)
    decreases |acts|
  {
    if acts != [] {
      StepInvariant(s, before, acts[0]);
      GoneExactly(Step(s, acts[0]), before, acts[1..], n);
    }
  }

  /** A cycle in which no scan succeeds adds no object, and one in which no deletion succeeds removes none. */
  lemma NothingWithoutSuccess(services: seq<Name>, before: set<Name>, acts: seq<Action>, s: State)
    requires Exec(Begin(services, before), acts) == Some(s)
    ensures (forall a | a in acts && a.Scan? :: !a.applied) ==> s.objects <= before && s.applied == {}
    ensures (forall a | a in acts && a.DeleteNext? :: !a.deleted) ==> before <= s.objects
  {
    forall n
      ensures n in s.objects ==> n in before || exists a :: a in acts && a.Scan? && a.applied
      ensures n in s.applied ==> exists a :: a in acts && a.Scan? && a.applied
      ensures n in before && n !in s.objects ==> exists a :: a in acts && a.DeleteNext? && a.deleted
    {
      RecordsExactly(Begin(services, before), acts, n);
      if Happens(Begin(services, before), acts, ResultApplied, n) {
        var u, a := Occurrence(Begin(services, before), acts, ResultApplied, n);
      }
      if Happens(Begin(services, before), acts, ObjectDeleted, n) {
        var u, a := Occurrence(Begin(services, before), acts, ObjectDeleted, n);
      }
    }
  }

  lemma {:induction false} Occurrence(s: State, acts: seq<Action>, deed: Deed, n: Name) returns (u: State, a: Action)
    requires Happens(s, acts, deed, n)
    ensures a in acts && Does(u, a, deed, n)
    decreases |acts|
  {
    if Does(s, acts[0], deed, n) {
      u, a := s, acts[0];
    } else {
      u, a := Occurrence(Step(s, acts[0]), acts[1..], deed, n);
    }
  }

  // ---------------------------------------------------------------- outcomes

  /** What a finished cycle leaves: the listed services that have an object from before or from this cycle, and the
      stale objects that were not deleted. */
  lemma CycleOutcome(services: seq<Name>, before: set<Name>, acts: seq<Action>, s: State)
    requires CycleEnds(services, before, acts, s) && KubernetesNames(before + s.listed)
    ensures forall n :: n in s.objects <==> n in (before + s.applied) * s.listed || n in s.undeleted
    ensures s.undeleted <= before - s.listed
  {
    ExecInvariant(Begin(services, before), before, acts);
    forall n | n in before + s.applied
      ensures Key(n) in s.current <==> n in s.listed
    {
      if Key(n) in s.current {
        var m :| m in s.listed && Key(m) == Key(n);
        KeyIdentifies(m, n);
      }
    }
  }

  lemma {:induction false} DeletedStaysGone(s: State, before: set<Name>, acts: seq<Action>, n: Name)
    requires Invariant(s, before) && Exec(s, acts).Some? && Happens(s, acts, ObjectDeleted, n)
    ensures n !in Exec(s, acts).value.objects
    decreases |acts|
  {
    StepInvariant(s, before, acts[0]);
    if Does(s, acts[0], ObjectDeleted, n) {
      GoneExactly(Step(s, acts[0]), before, acts[1..], n);
    } else {
      DeletedStaysGone(Step(s, acts[0]), before, acts[1..], n);
    }
  }

  /** In terms of the actions alone: a finished cycle leaves an object for exactly the names that had one before or got
      one by a successful scan, and that were listed as a service or not successfully deleted. */
  lemma OutcomeOfActions(services: seq<Name>, before: set<Name>, acts: seq<Action>, s: State, n: Name)
    requires CycleEnds(services, before, acts, s) && KubernetesNames(before + s.listed)
    ensures n in s.objects <==>
            && (n in before || Happens(Begin(services, before), acts, ResultApplied, n))
            && (Happens(Begin(services, before), acts, ServiceListed, n)
                || !Happens(Begin(services, before), acts, ObjectDeleted, n))
  {
    var start := Begin(services, before);
    RecordsExactly(start, acts, n);
    CycleOutcome(services, before, acts, s);
    ExecInvariant(start, before, acts);
    if Happens(start, acts, ObjectDeleted, n) {
      DeletedStaysGone(start, before, acts, n);
    }
  }

  /** The cycle ends with exactly one object for each listed service precisely when every listed service had an
      object already or got one now, and no stale object stayed. */
  lemma CycleReconcilesExactly(services: seq<Name>, before: set<Name>, acts: seq<Action>, s: State)
    requires CycleEnds(services, before, acts, s) && KubernetesNames(before + s.listed)
    ensures s.objects == s.listed <==> s.listed <= before + s.applied && s.undeleted == {}
  {
    CycleOutcome(services, before, acts, s);
  }

  ghost function All(services: seq<Name>): set<Name> {
    set n | n in services
  }

  lemma {:induction false} ExecKeepsServices(s: State, acts: seq<Action>)
    requires Exec(s, acts).Some?
    ensures var t := Exec(s, acts).value; t.listed + All(t.services) == s.listed + All(s.services)
    decreases |acts|
  {
    if acts != [] {
      var s' := Step(s, acts[0]);
      if acts[0].ListNext? {
        assert s.services == [s.services[0]] + s'.services;
      }
      ExecKeepsServices(s', acts[1..]);
    }
  }

  lemma ListedAreServices(services: seq<Name>, before: set<Name>, acts: seq<Action>, s: State)
    requires Exec(Begin(services, before), acts) == Some(s)
    ensures s.listed <= All(services)
  {
    ExecKeepsServices(Begin(services, before), acts);
  }

  /** The cycle ends with exactly one object for each service, listed or not, precisely when every listed service had
      an object already or got one now, and of the stale objects those stayed, and only those, whose service was not
      listed. If no stale object stayed, that is when the listing was complete and every service had or got one. */
  lemma ServicesKeepResultsExactly(services: seq<Name>, before: set<Name>, acts: seq<Action>, s: State)
    requires CycleEnds(services, before, acts, s) && KubernetesNames(before + All(services))
    ensures s.objects == All(services) <==>
            s.listed <= before + s.applied && s.undeleted == All(services) - s.listed
    ensures s.undeleted == {} ==>
              (s.objects == All(services) <==> s.listed == All(services) && All(services) <= before + s.applied)
  {
    ListedAreServices(services, before, acts, s);
    CycleOutcome(services, before, acts, s);
    ExecInvariant(Begin(services, before), before, acts);
  }

  /** A single service keeps or gets its result exactly when it was listed and had an object or got one, or its old
      object stayed undeleted. */
  lemma ServiceKeepsResultExactly(services: seq<Name>, before: set<Name>, acts: seq<Action>, s: State, n: Name)
    requires CycleEnds(services, before, acts, s) && KubernetesNames(before + All(services))
    requires n in services
    ensures n in s.objects <==> if n in s.listed then n in before + s.applied else n in s.undeleted
  {
    ListedAreServices(services, before, acts, s);
    CycleOutcome(services, before, acts, s);
  }

  /** A second cycle over services that all have their object, and no others, changes nothing. */
  lemma SecondCycleChangesNothing(services: seq<Name>, before: set<Name>, acts: seq<Action>, s: State)
    requires CycleEnds(services, before, acts, s) && KubernetesNames(before)
    requires s.listed == before
    ensures s.objects == before
  {
    CycleOutcome(services, before, acts, s);
    assert before + s.listed == before;
  }

  /** A cycle that reaches its end has waited for every scan, and every invocation of the pool had succeeded. */
  lemma NoScanAfterDeleteBegins(services: seq<Name>, before: set<Name>, acts: seq<Action>, s: State, a: Action)
    requires Exec(Begin(services, before), acts) == Some(s)
    requires s.phase.Deleting? || s.phase.Finished?
    requires Enabled(s, a)
    ensures !a.Scan? && Step(s, a).applied == s.applied && s.lost == 0
  {
    ExecInvariant(Begin(services, before), before, acts);
  }

  lemma {:induction false} LostForever(s: State, before: set<Name>, acts: seq<Action>)
    requires Invariant(s, before) && s.lost > 0 && Exec(s, acts).Some?
    ensures Exec(s, acts).value.lost > 0
    decreases |acts|
  {
    if acts != [] {
      StepInvariant(s, before, acts[0]);
      LostForever(Step(s, acts[0]), before, acts[1..]);
    }
  }

  lemma {:induction false} DrainAndFinish(s: State, before: set<Name>) returns (acts: seq<Action>)
    requires Invariant(s, before) && s.lost == 0
    ensures Exec(s, acts).Some? && Exec(s, acts).value.phase.Finished?
    ensures Exec(s, acts).value.undeleted == s.undeleted
    decreases (match s.phase case Listing => 3 case Waiting => 2 case Deleting(_) => 1 case Finished => 0),
              match s.phase case Deleting(todo) => |todo| case _ => |s.jobs|
  {
    var a: Action;
    match s.phase {
      case Finished => return [];
      case Listing => a := ListEnds;
      case Waiting =>
        if s.jobs != [] {
          a := Scan(0, true);
        } else {
          var snapshot := Enumeration(s.objects);
          a := BeginDelete(snapshot);
        }
      case Deleting(todo) => a := if todo == [] then Finish else DeleteNext(true);
    }
    StepInvariant(s, before, a);
    var rest := DrainAndFinish(Step(s, a), before);
    acts := [a] + rest;
    assert acts[1..] == rest;
  }

  lemma {:induction false} Enumeration(names: set<Name>) returns (order: seq<Name>)
    ensures Lists(order, names) && forall n | n in names :: n in order
  {
    order := [];
    if names != {} {
      var n :| n in names;
      var rest := Enumeration(names - {n});
      order := [n] + rest;
    }
  }

  /** The cycle can still end exactly as long as no invocation of the pool has failed: a job that was counted but
      not accepted keeps the WaitGroup waiting for good. If it can end, it can with no more stale objects staying. */
  lemma CycleCanEndExactly(services: seq<Name>, before: set<Name>, acts: seq<Action>, s: State)
    requires Exec(Begin(services, before), acts) == Some(s)
    ensures (exists more :: Exec(s, more).Some? && Exec(s, more).value.phase.Finished?) <==> s.lost == 0
    ensures s.lost == 0 ==> exists more :: Exec(s, more).Some? && Exec(s, more).value.phase.Finished?
                                           && Exec(s, more).value.undeleted == s.undeleted
  {
    ExecInvariant(Begin(services, before), before, acts);
    if s.lost > 0 {
      forall more | Exec(s, more).Some?
        ensures !Exec(s, more).value.phase.Finished?
      {
        LostForever(s, before, more);
        ExecInvariant(s, before, more);
      }
    } else {
      var more := DrainAndFinish(s, before);
    }
  }

  /** The listing's error is ignored, so a listing that breaks off early costs existing services their results. */
  lemma BrokenListingDeletesResult(n: Name)
    ensures exists acts, s :: CycleEnds([n], {n}, acts, s) && s.objects == {} && s.lost == 0 && s.undeleted == {}
  {
    var s0 := Begin([n], {n});
    var s1 := Step(s0, ListEnds);
    var s2 := Step(s1, BeginDelete([n]));
    var s3 := Step(s2, DeleteNext(true));
    var s4 := Step(s3, Finish);
    var acts := [ListEnds, BeginDelete([n]), DeleteNext(true), Finish];
    assert acts[1..] == [BeginDelete([n]), DeleteNext(true), Finish];
    assert [BeginDelete([n]), DeleteNext(true), Finish][1..] == [DeleteNext(true), Finish];
    assert [DeleteNext(true), Finish][1..] == [Finish];
    assert Exec(s3, [Finish]) == Exec(s4, []);
    assert Exec(s2, [DeleteNext(true), Finish]) == Exec(s3, [Finish]);
    assert Exec(s1, acts[1..]) == Exec(s2, [DeleteNext(true), Finish]);
    assert CycleEnds([n], {n}, acts, s4);
  }
}
