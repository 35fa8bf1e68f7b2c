/** Two pod events after which the caches no longer say what the events said: between them the pod's workload changes
    parents, as when a ReplicaSet is orphaned, and nothing else does (handlePodWatcher in watcher/podwatcher.go). */
module ChangedParent {
  import opened Wrappers
  import opened ContainerUtils
  import opened PodSlugs
  import opened ScanDedup
  import opened ScanRuns
  import opened ScanHistory
  import opened PodWatcher

  const IMAGE := "r.io/app@sha256:0"

  const INSTANCE := InstanceID("app", Container, "pod-app", "pod", "instance-app")

  const POD := Pod("default", [ContainerSpec("app", "r.io/app:1")], [], [ContainerStatus("app", IMAGE)], [], [])

  /** The pod's event, with `wlid` as the answer of the parent lookup. */
  ghost function EventOf(wlid: string): PodEvent {
    PodEvent(POD, Ok([INSTANCE]), Ok(wlid), map[])
  }

  ghost function OnlyVisit(wlid: string): Visit {
    Visit(POD, "pod-app", IMAGE, "pod",
          Ok(ContainerData("r.io/app:1", IMAGE, "instance-app", "app", Container, "pod-app", wlid)), None)
  }

  lemma VisitsOfEvent(wlid: string)
    ensures VisitsOf(EventOf(wlid)) == {OnlyVisit(wlid)}
  {
    assert ExtractImageID(IMAGE) == IMAGE by { assert IMAGE[0] == 'r'; }
    var ids := [INSTANCE];
    assert WithImage(ids, map[], "app", IMAGE) == map["pod-app" := IMAGE];
    assert ids[1..] == [] && POD.containerStatuses[1..] == [];
    assert WithStatuses(ids, map[], POD.containerStatuses)
        == WithStatuses(ids, WithImage(ids, map[], "app", IMAGE), []);
    assert ImagesBySlug(POD, ids) == map["pod-app" := IMAGE];
    InstancesBySlugMeaning(ids);
    assert VisitOf(EventOf(wlid), "pod-app") == OnlyVisit(wlid);
  }

  lemma KeysDiffer(a: string, b: string)
    requires a != b
    ensures Key(OnlyVisit(a)) != Key(OnlyVisit(b))
  {
    if |a| == |b| {
      var i :| 0 <= i < |a| && a[i] != b[i];
      assert Key(OnlyVisit(a))[i] == a[i] && Key(OnlyVisit(b))[i] == b[i];
    }
  }

  lemma SingleVisit(c: Caches, v: Visit)
    ensures HandleEvent(c, [v]) == VisitSlug(State(c, {}, []), v)
  {
    var s := State(c, {}, []);
    assert [v][..|[v]| - 1] == [];
    assert VisitAll(s, []) == s;
  }

  lemma RunOfBoth(a: string, b: string)
    ensures var r := Run([[OnlyVisit(a)], [OnlyVisit(b)]]);
            && r.caches == Caches(map["pod-app" := IMAGE], {Key(OnlyVisit(a))})
            && r.log == [Submission(CommandOf(OnlyVisit(a)), Key(OnlyVisit(a)), true)]
  {
    var v, w := OnlyVisit(a), OnlyVisit(b);
    var c := Caches(map["pod-app" := IMAGE], {Key(v)});
    var sub := Submission(CommandOf(v), Key(v), true);
    SingleVisit(EMPTY_CACHES, v);
    SingleVisit(c, w);
    assert HandleEvent(EMPTY_CACHES, [v]) == State(c, {}, [sub]);
    assert HandleEvent(c, [w]) == State(c, {}, []);
    assert [[v], [w]][..1] == [[v]] && [[v]][..0] == [];
    assert Run([[v]]) == RunState(c, [sub]);
  }

  /** The second event shows the slug with the image it has (use case 6), so the container's new key is not covered
      and no command is submitted for the new parent. Container names and slugs are in order. */
  lemma ChangedParentExample(a: string, b: string)
    requires a != b
    ensures WellNamed(EventOf(a)) && WellNamed(EventOf(b))
    ensures var history := [[OnlyVisit(a)], [OnlyVisit(b)]];
            && Events(history) && HistoryOf(history, [EventOf(a), EventOf(b)])
            && SlugsAlwaysAgree(history) && !CachesAlwaysAgree(history)
            && Run(history).log == [Submission(CommandOf(OnlyVisit(a)), Key(OnlyVisit(a)), true)]
            && Key(OnlyVisit(b)) !in Run(history).caches.wlidAndImageID
  {
    var v, w := OnlyVisit(a), OnlyVisit(b);
    var history := [[v], [w]];
    HistoryOfBoth(a, b);
    RunOfBoth(a, b);
    KeysDiffer(a, b);
    AgreeingImages(history);
    SlugsAgreeExactly(history);
    KeyMissing(history, w);
  }

  lemma HistoryOfBoth(a: string, b: string)
    ensures WellNamed(EventOf(a)) && WellNamed(EventOf(b))
    ensures var history := [[OnlyVisit(a)], [OnlyVisit(b)]];
            Events(history) && HistoryOf(history, [EventOf(a), EventOf(b)]) && Agreeing(history)
  {
    VisitsOfEvent(a);
    VisitsOfEvent(b);
    assert Elements([OnlyVisit(a)]) == {OnlyVisit(a)} && Elements([OnlyVisit(b)]) == {OnlyVisit(b)};
  }

  lemma KeyMissing(history: seq<seq<Visit>>, w: Visit)
    requires history != [] && w in history[|history| - 1] && w.data.Ok?
    requires Key(w) !in Run(history).caches.wlidAndImageID
    ensures !CachesAlwaysAgree(history)
  {
    assert Resolved(history, w);
  }
}
