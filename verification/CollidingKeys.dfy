/** A pod event whose outcome depends on the order of the handler's loop: two containers with one key
    (getWlidAndImageID in watcher/utils.go). */
module CollidingKeys {
  import opened Wrappers
  import opened ContainerUtils
  import opened PodSlugs
  import opened ScanDedup
  import opened ScanOrder
  import opened PodWatcher

  const SECOND_IMAGE := "c.io/x@sha256:0"

  const FIRST_IMAGE := "b" + SECOND_IMAGE

  const FIRST_INSTANCE := InstanceID("a", Container, "pod-a", "pod", "instance-a")

  const SECOND_INSTANCE := InstanceID("ab", Container, "pod-ab", "pod", "instance-ab")

  /** A pod whose container "a" runs an image of registry bc.io, and container "ab" one of registry c.io. */
  const COLLIDING_POD := Pod(
    "default",
    [ContainerSpec("a", "bc.io/x:1"), ContainerSpec("ab", "c.io/x:1")],
    [],
    [ContainerStatus("a", FIRST_IMAGE), ContainerStatus("ab", SECOND_IMAGE)],
    [],
    [])

  const COLLIDING_EVENT := PodEvent(COLLIDING_POD, Ok([FIRST_INSTANCE, SECOND_INSTANCE]), Ok("wlid"), map[])

  ghost const FIRST_VISIT :=
    Visit(COLLIDING_POD, "pod-a", FIRST_IMAGE, "pod",
          Ok(ContainerData("bc.io/x:1", FIRST_IMAGE, "instance-a", "a", Container, "pod-a", "wlid")), None)

  ghost const SECOND_VISIT :=
    Visit(COLLIDING_POD, "pod-ab", SECOND_IMAGE, "pod",
          Ok(ContainerData("c.io/x:1", SECOND_IMAGE, "instance-ab", "ab", Container, "pod-ab", "wlid")), None)

  lemma CollidingImages()
    ensures ImagesBySlug(COLLIDING_POD, [FIRST_INSTANCE, SECOND_INSTANCE])
         == map["pod-a" := FIRST_IMAGE, "pod-ab" := SECOND_IMAGE]
  {
    var ids, sts := [FIRST_INSTANCE, SECOND_INSTANCE], COLLIDING_POD.containerStatuses;
    var first: map<string, string> := map["pod-a" := FIRST_IMAGE];
    assert ExtractImageID(sts[0].imageID) == FIRST_IMAGE by { assert sts[0].imageID[0] == 'b'; }
    assert ExtractImageID(sts[1].imageID) == SECOND_IMAGE by { assert sts[1].imageID[0] == 'c'; }
    assert ids[1..] == [SECOND_INSTANCE] && ids[1..][1..] == [];
    assert sts[1..] == [sts[1]] && sts[1..][1..] == [];
    assert WithImage(ids, map[], "a", FIRST_IMAGE) == first by {
      assert |SECOND_INSTANCE.containerName| == 2;
      assert WithImage(ids[1..], first, "a", FIRST_IMAGE) == first;
    }
    assert WithImage(ids, first, "ab", SECOND_IMAGE) == first["pod-ab" := SECOND_IMAGE] by {
      assert |FIRST_INSTANCE.containerName| == 1;
      assert WithImage(ids[1..], first, "ab", SECOND_IMAGE) == first["pod-ab" := SECOND_IMAGE];
    }
    assert WithStatuses(ids, first, sts[1..]) == first["pod-ab" := SECOND_IMAGE];
    assert WithStatuses(ids, map[], sts) == WithStatuses(ids, first, sts[1..]);
  }

  lemma CollidingData()
    ensures PodToContainerData(COLLIDING_POD, FIRST_INSTANCE, Ok("wlid")) == FIRST_VISIT.data
    ensures PodToContainerData(COLLIDING_POD, SECOND_INSTANCE, Ok("wlid")) == SECOND_VISIT.data
  {
    var specs, sts := COLLIDING_POD.containers, COLLIDING_POD.containerStatuses;
    assert SECOND_INSTANCE.containerName != "a" by { assert |SECOND_INSTANCE.containerName| == 2; }
    assert specs[1..] == [specs[1]] && sts[1..] == [sts[1]];
    assert GetImageFromSpec(SECOND_INSTANCE, specs) == GetImageFromSpec(SECOND_INSTANCE, [specs[1]]);
    assert GetImageFromStatus(SECOND_INSTANCE, sts) == GetImageFromStatus(SECOND_INSTANCE, [sts[1]]);
    assert ExtractImageID(FIRST_IMAGE) == FIRST_IMAGE by { assert FIRST_IMAGE[0] == 'b'; }
    assert ExtractImageID(SECOND_IMAGE) == SECOND_IMAGE by { assert SECOND_IMAGE[0] == 'c'; }
  }

  lemma CollidingVisits()
    ensures VisitsOf(COLLIDING_EVENT) == {FIRST_VISIT, SECOND_VISIT}
  {
    var ids := [FIRST_INSTANCE, SECOND_INSTANCE];
    CollidingImages();
    CollidingData();
    InstancesBySlugMeaning(ids);
    assert "pod-a" != "pod-ab" by { assert |"pod-a"| != |"pod-ab"|; }
    assert InstancesBySlug(ids)["pod-a"] == FIRST_INSTANCE;
    assert InstancesBySlug(ids)["pod-ab"] == SECOND_INSTANCE;
    assert VisitOf(COLLIDING_EVENT, "pod-a") == FIRST_VISIT;
    assert VisitOf(COLLIDING_EVENT, "pod-ab") == SECOND_VISIT;
  }

  /** Letters that move from the front of the image to the end of the container name leave the key alone. */
  lemma MovedLettersShareKey(d: ContainerData, e: ContainerData, moved: string)
    requires d.wlid == e.wlid && e.containerName == d.containerName + moved && d.imageID == moved + e.imageID
    ensures GetWlidAndImageID(d) == GetWlidAndImageID(e)
  {
  }

  lemma CollidingKeys()
    ensures Key(FIRST_VISIT) == Key(SECOND_VISIT)
  {
    var d, e := FIRST_VISIT.data.value, SECOND_VISIT.data.value;
    assert e.containerName == d.containerName + "b";
    MovedLettersShareKey(d, e, "b");
  }

  lemma CollidingOrders()
    ensures FIRST_VISIT.slug != SECOND_VISIT.slug
    ensures SameVisits([FIRST_VISIT, SECOND_VISIT], [SECOND_VISIT, FIRST_VISIT])
  {
    assert |FIRST_VISIT.slug| != |SECOND_VISIT.slug|;
    assert Elements([FIRST_VISIT, SECOND_VISIT]) == {FIRST_VISIT, SECOND_VISIT} == Elements([SECOND_VISIT, FIRST_VISIT]);
  }

  /** The key is a plain concatenation, so the two containers share it, and the order of the loop decides which of
      them is scanned, alone. */
  lemma CollidingKeysExample()
    ensures VisitsOf(COLLIDING_EVENT) == {FIRST_VISIT, SECOND_VISIT}
    ensures SameVisits([FIRST_VISIT, SECOND_VISIT], [SECOND_VISIT, FIRST_VISIT])
    ensures HandleEvent(EMPTY_CACHES, [FIRST_VISIT, SECOND_VISIT]).submitted
         == [Submission(CommandOf(FIRST_VISIT), Key(FIRST_VISIT), true)]
    ensures HandleEvent(EMPTY_CACHES, [SECOND_VISIT, FIRST_VISIT]).submitted
         == [Submission(CommandOf(SECOND_VISIT), Key(SECOND_VISIT), true)]
    ensures CommandOf(FIRST_VISIT) != CommandOf(SECOND_VISIT)
  {
    CollidingVisits();
    CollidingKeys();
    CollidingOrders();
    TwoVisits(FIRST_VISIT, SECOND_VISIT);
    TwoVisits(SECOND_VISIT, FIRST_VISIT);
  }
}
