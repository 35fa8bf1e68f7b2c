/** Which slugs a pod reports, with their images and instances (the mapping helpers of watcher/podwatcher.go). */
module PodSlugs {
  import opened ContainerUtils

  ghost function WithImage(ids: seq<InstanceID>, l: map<string, string>, name: string, imageID: string): map<string, string> {
    if ids == [] then l
    else WithImage(ids[1..], if ids[0].containerName == name then l[ids[0].slug := imageID] else l, name, imageID)
  }

  ghost function WithStatuses(ids: seq<InstanceID>, l: map<string, string>, statuses: seq<ContainerStatus>): map<string, string>
    decreases |statuses|
  {
    if statuses == [] then l
    else
      var imageID := ExtractImageID(statuses[0].imageID);
      WithStatuses(ids, if imageID == "" then l else WithImage(ids, l, statuses[0].name, imageID), statuses[1..])
  }

  /** The image of every slug of a pod: regular, then init, then ephemeral statuses, later ones winning. */
  ghost function ImagesBySlug(pod: Pod, ids: seq<InstanceID>): map<string, string> {
    WithStatuses(ids, WithStatuses(ids, WithStatuses(ids, map[], pod.containerStatuses),
                                   pod.initContainerStatuses), pod.ephemeralContainerStatuses)
  }

  ghost function InstancesBySlug(ids: seq<InstanceID>): map<string, InstanceID> {
    if ids == [] then map[]
    else InstancesBySlug(ids[..|ids| - 1])[ids[|ids| - 1].slug := ids[|ids| - 1]]
  }

  method MapSlugsToImageIDs(pod: Pod, ids: seq<InstanceID>) returns (l: map<string, string>)
    ensures l == ImagesBySlug(pod, ids)
  {
    l := map[];
    l := SlugToImage(ids, l, pod.containerStatuses);
    l := SlugToImage(ids, l, pod.initContainerStatuses);
    l := SlugToImage(ids, l, pod.ephemeralContainerStatuses);
  }

  method SlugToImage(ids: seq<InstanceID>, l0: map<string, string>, statuses: seq<ContainerStatus>)
    returns (l: map<string, string>)
    ensures l == WithStatuses(ids, l0, statuses)
  {
    l := l0;
    for i := 0 to |statuses|
      invariant WithStatuses(ids, l, statuses[i..]) == WithStatuses(ids, l0, statuses)
    {
      var imageID := ExtractImageID(statuses[i].imageID);
      if imageID == "" {
        continue;
      }
      ghost var before := l;
      for j := 0 to |ids|
        invariant WithImage(ids[j..], l, statuses[i].name, imageID)
               == WithImage(ids, before, statuses[i].name, imageID)
      {
        if ids[j].containerName == statuses[i].name {
          l := l[ids[j].slug := imageID];
        }
      }
    }
  }

  method MapSlugToInstanceID(ids: seq<InstanceID>) returns (l: map<string, InstanceID>)
    ensures l == InstancesBySlug(ids)
  {
    l := map[];
    for i := 0 to |ids|
      invariant l == InstancesBySlug(ids[..i])
    {
      assert ids[..i + 1][..i] == ids[..i];
      l := l[ids[i].slug := ids[i]];
    }
    assert ids[..|ids|] == ids;
  }

  /** Status `st` reports image `image` for the container of instance `id`, whose slug is `slug`. */
  ghost predicate Reports(id: InstanceID, st: ContainerStatus, slug: string, image: string) {
    id.slug == slug && id.containerName == st.name && ExtractImageID(st.imageID) == image && image != ""
  }

  ghost predicate Reported(ids: seq<InstanceID>, statuses: seq<ContainerStatus>, slug: string, image: string) {
    exists id, st :: id in ids && st in statuses && Reports(id, st, slug, image)
  }

  /** `r` is `l` overwritten with reported images: it holds every slug of either, and nothing else. */
  ghost predicate Overwrites(ids: seq<InstanceID>, l: map<string, string>, statuses: seq<ContainerStatus>, r: map<string, string>) {
    && (forall s :: s in l ==> s in r)
    && (forall s, image :: Reported(ids, statuses, s, image) ==> s in r)
    && (forall s :: s in r ==> Reported(ids, statuses, s, r[s]) || (s in l && r[s] == l[s]))
  }

  lemma ReportedMono(ids: seq<InstanceID>, ids': seq<InstanceID>, sts: seq<ContainerStatus>, sts': seq<ContainerStatus>)
    requires forall id :: id in ids ==> id in ids'
    requires forall st :: st in sts ==> st in sts'
    ensures forall s, image :: Reported(ids, sts, s, image) ==> Reported(ids', sts', s, image)
  {
  }

  lemma {:induction false} WithImageOverwrites(ids: seq<InstanceID>, l: map<string, string>, st: ContainerStatus)
    requires ExtractImageID(st.imageID) != ""
    ensures Overwrites(ids, l, [st], WithImage(ids, l, st.name, ExtractImageID(st.imageID)))
  {
    if ids != [] {
      var imageID := ExtractImageID(st.imageID);
      var l' := if ids[0].containerName == st.name then l[ids[0].slug := imageID] else l;
      WithImageOverwrites(ids[1..], l', st);
      ReportedMono(ids[1..], ids, [st], [st]);
      var r := WithImage(ids, l, st.name, imageID);
      forall s | s in r
        ensures Reported(ids, [st], s, r[s]) || (s in l && r[s] == l[s])
      {
        if !Reported(ids[1..], [st], s, r[s]) && !(s in l && r[s] == l[s]) {
          assert ids[0] in ids && st in [st] && Reports(ids[0], st, s, r[s]);
        }
      }
      forall s, image | Reported(ids, [st], s, image)
        ensures s in r
      {
        var id, st' :| id in ids && st' in [st] && Reports(id, st', s, image);
        assert s in l' || (id in ids[1..] && Reported(ids[1..], [st], s, image));
      }
    }
  }

  lemma {:induction false} WithStatusesOverwrites(ids: seq<InstanceID>, l: map<string, string>, statuses: seq<ContainerStatus>)
    ensures Overwrites(ids, l, statuses, WithStatuses(ids, l, statuses))
    decreases |statuses|
  {
    if statuses != [] {
      var st := statuses[0];
      var imageID := ExtractImageID(st.imageID);
      var l' := if imageID == "" then l else WithImage(ids, l, st.name, imageID);
      if imageID != "" {
        WithImageOverwrites(ids, l, st);
      }
      WithStatusesOverwrites(ids, l', statuses[1..]);
      ReportedMono(ids, ids, statuses[1..], statuses);
      ReportedMono(ids, ids, [st], statuses);
      forall s, image | Reported(ids, statuses, s, image)
        ensures s in WithStatuses(ids, l, statuses)
      {
        var id, st' :| id in ids && st' in statuses && Reports(id, st', s, image);
        if st' == st {
          assert st' in [st] && Reported(ids, [st], s, image);
        } else {
          assert st' in statuses[1..] && Reported(ids, statuses[1..], s, image);
        }
      }
    }
  }

  /** A slug gets an image exactly when some status reports one for it, and the image is a reported one. */
  lemma ImagesBySlugMeaning(pod: Pod, ids: seq<InstanceID>)
    ensures var r := ImagesBySlug(pod, ids);
            && (forall s :: s in r <==> exists image :: Reported(ids, Statuses(pod), s, image))
            && (forall s | s in r :: Reported(ids, Statuses(pod), s, r[s]))
  {
    var r1 := WithStatuses(ids, map[], pod.containerStatuses);
    var r2 := WithStatuses(ids, r1, pod.initContainerStatuses);
    WithStatusesOverwrites(ids, map[], pod.containerStatuses);
    WithStatusesOverwrites(ids, r1, pod.initContainerStatuses);
    WithStatusesOverwrites(ids, r2, pod.ephemeralContainerStatuses);
    ReportedMono(ids, ids, pod.containerStatuses, Statuses(pod));
    ReportedMono(ids, ids, pod.initContainerStatuses, Statuses(pod));
    ReportedMono(ids, ids, pod.ephemeralContainerStatuses, Statuses(pod));
    forall s, image | Reported(ids, Statuses(pod), s, image)
      ensures s in ImagesBySlug(pod, ids)
    {
      var id, st :| id in ids && st in Statuses(pod) && Reports(id, st, s, image);
      assert Reported(ids, pod.containerStatuses, s, image) || Reported(ids, pod.initContainerStatuses, s, image)
          || Reported(ids, pod.ephemeralContainerStatuses, s, image);
    }
  }

  lemma {:induction false} WithImageSets(ids: seq<InstanceID>, l: map<string, string>, st: ContainerStatus, imageID: string, s: string)
    ensures var r := WithImage(ids, l, st.name, imageID);
            if exists id :: id in ids && id.slug == s && id.containerName == st.name then s in r && r[s] == imageID
            else (s in r <==> s in l) && (s in r ==> r[s] == l[s])
  {
    if ids != [] {
      var l' := if ids[0].containerName == st.name then l[ids[0].slug := imageID] else l;
      WithImageSets(ids[1..], l', st, imageID, s);
      assert forall id :: id in ids <==> id == ids[0] || id in ids[1..];
    }
  }

  /** Some status of the list reports an image for the slug. */
  ghost predicate Mentions(ids: seq<InstanceID>, st: ContainerStatus, s: string) {
    ExtractImageID(st.imageID) != "" && exists id :: id in ids && id.slug == s && id.containerName == st.name
  }

  lemma {:induction false} UnmentionedStays(ids: seq<InstanceID>, l: map<string, string>, statuses: seq<ContainerStatus>, s: string)
    requires forall m | 0 <= m < |statuses| :: !Mentions(ids, statuses[m], s)
    ensures var r := WithStatuses(ids, l, statuses); (s in r <==> s in l) && (s in r ==> r[s] == l[s])
    decreases |statuses|
  {
    if statuses != [] {
      var imageID := ExtractImageID(statuses[0].imageID);
      WithImageSets(ids, l, statuses[0], imageID, s);
      UnmentionedStays(ids, if imageID == "" then l else WithImage(ids, l, statuses[0].name, imageID), statuses[1..], s);
    }
  }

  lemma {:induction false} LastMentionWins(ids: seq<InstanceID>, l: map<string, string>, statuses: seq<ContainerStatus>, s: string, k: nat)
    requires k < |statuses| && Mentions(ids, statuses[k], s)
    requires forall m | k < m < |statuses| :: !Mentions(ids, statuses[m], s)
    ensures var r := WithStatuses(ids, l, statuses); s in r && r[s] == ExtractImageID(statuses[k].imageID)
    decreases |statuses|
  {
    var imageID := ExtractImageID(statuses[0].imageID);
    var l' := if imageID == "" then l else WithImage(ids, l, statuses[0].name, imageID);
    if k == 0 {
      WithImageSets(ids, l, statuses[0], imageID, s);
      UnmentionedStays(ids, l', statuses[1..], s);
    } else {
      LastMentionWins(ids, l', statuses[1..], s, k - 1);
    }
  }

  lemma {:induction false} WithStatusesAppend(ids: seq<InstanceID>, l: map<string, string>, a: seq<ContainerStatus>, b: seq<ContainerStatus>)
    ensures WithStatuses(ids, l, a + b) == WithStatuses(ids, WithStatuses(ids, l, a), b)
    decreases |a|
  {
    if a == [] {
      assert a + b == b;
    } else {
      var imageID := ExtractImageID(a[0].imageID);
      assert (a + b)[1..] == a[1..] + b;
      WithStatusesAppend(ids, if imageID == "" then l else WithImage(ids, l, a[0].name, imageID), a[1..], b);
    }
  }

  /** Of several statuses that report an image for a slug, the last one counts: over the regular, then the init, then
      the ephemeral containers. */
  lemma LastReportCounts(pod: Pod, ids: seq<InstanceID>, s: string, k: nat)
    requires k < |Statuses(pod)| && Mentions(ids, Statuses(pod)[k], s)
    requires forall m | k < m < |Statuses(pod)| :: !Mentions(ids, Statuses(pod)[m], s)
    ensures s in ImagesBySlug(pod, ids) && ImagesBySlug(pod, ids)[s] == ExtractImageID(Statuses(pod)[k].imageID)
  {
    WithStatusesAppend(ids, map[], pod.containerStatuses, pod.initContainerStatuses);
    WithStatusesAppend(ids, map[], pod.containerStatuses + pod.initContainerStatuses, pod.ephemeralContainerStatuses);
    LastMentionWins(ids, map[], Statuses(pod), s, k);
  }

  /** Of several instances with one slug, the last one counts. */
  lemma {:induction false} LastInstanceCounts(ids: seq<InstanceID>, k: nat)
    requires k < |ids| && forall m | k < m < |ids| :: ids[m].slug != ids[k].slug
    ensures ids[k].slug in InstancesBySlug(ids) && InstancesBySlug(ids)[ids[k].slug] == ids[k]
  {
    if k < |ids| - 1 {
      LastInstanceCounts(ids[..|ids| - 1], k);
    }
  }

  ghost predicate UniqueSlugs(ids: seq<InstanceID>) {
    forall i, j | 0 <= i < j < |ids| :: ids[i].slug != ids[j].slug
  }

  lemma {:induction false} InstancesBySlugMeaning(ids: seq<InstanceID>)
    ensures forall s :: s in InstancesBySlug(ids) <==> exists id :: id in ids && id.slug == s
    ensures forall s | s in InstancesBySlug(ids) :: InstancesBySlug(ids)[s] in ids && InstancesBySlug(ids)[s].slug == s
  {
    if ids != [] {
      InstancesBySlugMeaning(ids[..|ids| - 1]);
      assert forall id :: id in ids <==> id in ids[..|ids| - 1] || id == ids[|ids| - 1];
    }
  }
}
