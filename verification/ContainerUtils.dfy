/** Pods, their containers, and how a container's image is resolved (utils/utils.go). */
module ContainerUtils {
  import opened Wrappers

  datatype InstanceType = Container | InitContainer | EphemeralContainer

  /** An instance ID with what its accessors return: GetSlug(false) is `slug`, GetSlug(true) is `noContainerSlug`. */
  datatype InstanceID = InstanceID(
    containerName: string,
    instanceType: InstanceType,
    slug: string,
    noContainerSlug: string,
    formatted: string)

  datatype ContainerSpec = ContainerSpec(name: string, image: string)

  datatype ContainerStatus = ContainerStatus(name: string, imageID: string)

  datatype Pod = Pod(
    namespace: string,
    containers: seq<ContainerSpec>,
    initContainers: seq<ContainerSpec>,
    containerStatuses: seq<ContainerStatus>,
    initContainerStatuses: seq<ContainerStatus>,
    ephemeralContainerStatuses: seq<ContainerStatus>)

  datatype ContainerData = ContainerData(
    imageTag: string,
    imageID: string,
    instanceID: string,
    containerName: string,
    containerType: InstanceType,
    slug: string,
    wlid: string)

  const DOCKER_PULLABLE_URN := "docker-pullable://"

  function ExtractImageID(imageID: string): string {
    if DOCKER_PULLABLE_URN <= imageID then imageID[|DOCKER_PULLABLE_URN|..] else imageID
  }

  /** The image ID of the first status with the container's name, or the empty string. */
  function GetImageFromStatus(id: InstanceID, statuses: seq<ContainerStatus>): string {
    if statuses == [] then ""
    else if id.containerName == statuses[0].name then ExtractImageID(statuses[0].imageID)
    else GetImageFromStatus(id, statuses[1..])
  }

  /** The image tag of the first container spec with the container's name, or the empty string. */
  function GetImageFromSpec(id: InstanceID, containers: seq<ContainerSpec>): string {
    if containers == [] then ""
    else if id.containerName == containers[0].name then containers[0].image
    else GetImageFromSpec(id, containers[1..])
  }

  /** Image tag and image ID; ephemeral containers have none. */
  function GetImage(pod: Pod, id: InstanceID): Option<(string, string)> {
    var (imageTag, imageID) :=
      match id.instanceType
      case Container =>
        (GetImageFromSpec(id, pod.containers), GetImageFromStatus(id, pod.containerStatuses))
      case InitContainer =>
        (GetImageFromSpec(id, pod.initContainers), GetImageFromStatus(id, pod.initContainerStatuses))
      case EphemeralContainer => ("", "");
    if imageTag == "" || imageID == "" then None else Some((imageTag, imageID))
  }

  /** `parent` is the outcome of looking up the workload that owns the pod. */
  function PodToContainerData(pod: Pod, id: InstanceID, parent: Result<string>): (r: Result<ContainerData>)
    ensures r.Ok? ==> r.value.slug == id.slug && r.value.containerName == id.containerName
  {
    match parent
    case Err(e) => Err(e)
    case Ok(wlid) =>
      match GetImage(pod, id)
      case None => Err("failed to get image ID")
      case Some(image) =>
        Ok(ContainerData(image.0, image.1, id.formatted, id.containerName, id.instanceType, id.slug, wlid))
  }

  /** The key of the set of covered workload images: plain concatenation. */
  function GetWlidAndImageID(data: ContainerData): string {
    data.wlid + data.containerName + data.imageID
  }

  /** What keys tell apart: the keys of two containers of one workload are equal exactly when name and image, written
      one after the other, are; so with the same name, when the images are, and with the same image, when the names
      are. Containers with the same name and image are told apart by their workloads. */
  lemma KeysTellApart(d: ContainerData, e: ContainerData)
    ensures d.wlid == e.wlid ==>
              (GetWlidAndImageID(d) == GetWlidAndImageID(e)
               <==> d.containerName + d.imageID == e.containerName + e.imageID)
    ensures d.wlid == e.wlid && d.containerName == e.containerName ==>
              (GetWlidAndImageID(d) == GetWlidAndImageID(e) <==> d.imageID == e.imageID)
    ensures d.wlid == e.wlid && d.imageID == e.imageID ==>
              (GetWlidAndImageID(d) == GetWlidAndImageID(e) <==> d.containerName == e.containerName)
    ensures d.containerName == e.containerName && d.imageID == e.imageID ==>
              (GetWlidAndImageID(d) == GetWlidAndImageID(e) <==> d.wlid == e.wlid)
  {
    assert GetWlidAndImageID(d) == d.wlid + (d.containerName + d.imageID);
    assert GetWlidAndImageID(e) == e.wlid + (e.containerName + e.imageID);
    if d.wlid == e.wlid {
      SuffixesDecide(d.wlid, d.containerName + d.imageID, e.containerName + e.imageID);
      if d.containerName == e.containerName {
        SuffixesDecide(d.containerName, d.imageID, e.imageID);
      }
      if d.imageID == e.imageID {
        PrefixesDecide(d.containerName, e.containerName, d.imageID);
      }
    }
    if d.containerName == e.containerName && d.imageID == e.imageID {
      PrefixesDecide(d.wlid, e.wlid, d.containerName + d.imageID);
    }
  }

  lemma SuffixesDecide(p: string, a: string, b: string)
    ensures p + a == p + b <==> a == b
  {
    assert (p + a)[|p|..] == a && (p + b)[|p|..] == b;
  }

  lemma PrefixesDecide(a: string, b: string, s: string)
    ensures a + s == b + s <==> a == b
  {
    if a + s == b + s {
      assert |a| == |b|;
      assert (a + s)[..|a|] == a && (b + s)[..|a|] == b;
    }
  }

  /** The pull prefix is removed, once, and nothing else is. */
  lemma ImageIDWithoutPrefix(imageID: string)
    ensures ExtractImageID("docker-pullable://" + imageID) == imageID
    ensures !("docker-pullable://" <= imageID) ==> ExtractImageID(imageID) == imageID
  {
  }

  ghost function Statuses(pod: Pod): seq<ContainerStatus> {
    pod.containerStatuses + pod.initContainerStatuses + pod.ephemeralContainerStatuses
  }

  ghost predicate UniqueNames(statuses: seq<ContainerStatus>) {
    forall i, j | 0 <= i < j < |statuses| :: statuses[i].name != statuses[j].name
  }

  lemma {:induction false} GetImageFromStatusFinds(id: InstanceID, statuses: seq<ContainerStatus>)
    requires GetImageFromStatus(id, statuses) != ""
    ensures exists st :: st in statuses && st.name == id.containerName
                         && ExtractImageID(st.imageID) == GetImageFromStatus(id, statuses)
  {
    if id.containerName == statuses[0].name {
      assert statuses[0] in statuses;
    } else {
      GetImageFromStatusFinds(id, statuses[1..]);
    }
  }

  ghost function SpecsOf(pod: Pod, t: InstanceType): seq<ContainerSpec> {
    match t case Container => pod.containers case InitContainer => pod.initContainers case EphemeralContainer => []
  }

  ghost function StatusesOf(pod: Pod, t: InstanceType): seq<ContainerStatus> {
    match t
    case Container => pod.containerStatuses
    case InitContainer => pod.initContainerStatuses
    case EphemeralContainer => []
  }

  ghost predicate FirstSpec(specs: seq<ContainerSpec>, name: string, i: int) {
    0 <= i < |specs| && specs[i].name == name && forall j | 0 <= j < i :: specs[j].name != name
  }

  ghost predicate FirstStatus(statuses: seq<ContainerStatus>, name: string, i: int) {
    0 <= i < |statuses| && statuses[i].name == name && forall j | 0 <= j < i :: statuses[j].name != name
  }

  lemma {:induction false} SpecImageIsFirst(id: InstanceID, specs: seq<ContainerSpec>) returns (i: int)
    ensures GetImageFromSpec(id, specs) != "" ==> FirstSpec(specs, id.containerName, i)
    ensures forall j | FirstSpec(specs, id.containerName, j) :: j == i && GetImageFromSpec(id, specs) == specs[j].image
  {
    i := -1;
    if specs != [] {
      var k := SpecImageIsFirst(id, specs[1..]);
      i := if specs[0].name == id.containerName then 0 else k + 1;
      forall j | FirstSpec(specs, id.containerName, j)
        ensures j == i && GetImageFromSpec(id, specs) == specs[j].image
      {
        assert j > 0 ==> FirstSpec(specs[1..], id.containerName, j - 1);
      }
    }
  }

  lemma {:induction false} StatusImageIsFirst(id: InstanceID, statuses: seq<ContainerStatus>) returns (i: int)
    ensures GetImageFromStatus(id, statuses) != "" ==> FirstStatus(statuses, id.containerName, i)
    ensures forall j | FirstStatus(statuses, id.containerName, j) ::
              j == i && GetImageFromStatus(id, statuses) == ExtractImageID(statuses[j].imageID)
  {
    i := -1;
    if statuses != [] {
      var k := StatusImageIsFirst(id, statuses[1..]);
      i := if statuses[0].name == id.containerName then 0 else k + 1;
      forall j | FirstStatus(statuses, id.containerName, j)
        ensures j == i && GetImageFromStatus(id, statuses) == ExtractImageID(statuses[j].imageID)
      {
        assert j > 0 ==> FirstStatus(statuses[1..], id.containerName, j - 1);
      }
    }
  }

  /** The spec and the status that the data of a container come from: the first of its name in the lists of its kind;
      ephemeral containers have none. */
  ghost predicate DescribedBy(pod: Pod, id: InstanceID, i: int, j: int) {
    && FirstSpec(SpecsOf(pod, id.instanceType), id.containerName, i)
    && FirstStatus(StatusesOf(pod, id.instanceType), id.containerName, j)
    && SpecsOf(pod, id.instanceType)[i].image != ""
    && ExtractImageID(StatusesOf(pod, id.instanceType)[j].imageID) != ""
  }

  /** Container data can be resolved exactly when the parent is found and the first spec and status of the container
      have an image, and they are then the data of these, of the instance and of the parent. */
  lemma ResolvedExactly(pod: Pod, id: InstanceID, parent: Result<string>)
    ensures PodToContainerData(pod, id, parent).Ok? <==> parent.Ok? && exists i, j :: DescribedBy(pod, id, i, j)
    ensures forall i, j | parent.Ok? && DescribedBy(pod, id, i, j) ::
              var data := PodToContainerData(pod, id, parent).value;
              && data.imageTag == SpecsOf(pod, id.instanceType)[i].image
              && data.imageID == ExtractImageID(StatusesOf(pod, id.instanceType)[j].imageID)
              && data.containerName == id.containerName && data.containerType == id.instanceType
              && data.instanceID == id.formatted && data.slug == id.slug && data.wlid == parent.value
  {
    var i := SpecImageIsFirst(id, SpecsOf(pod, id.instanceType));
    var j := StatusImageIsFirst(id, StatusesOf(pod, id.instanceType));
    if GetImage(pod, id).Some? {
      assert DescribedBy(pod, id, i, j);
    }
  }

  /** With unique container names, any status with the container's name carries the resolved image. */
  lemma ResolvedImageIsTheNamedStatus(pod: Pod, id: InstanceID, parent: Result<string>, st: ContainerStatus)
    requires UniqueNames(Statuses(pod))
    requires PodToContainerData(pod, id, parent).Ok?
    requires st in Statuses(pod) && st.name == id.containerName
    ensures PodToContainerData(pod, id, parent).value.imageID == ExtractImageID(st.imageID)
  {
    var statuses := if id.instanceType.Container? then pod.containerStatuses else pod.initContainerStatuses;
    GetImageFromStatusFinds(id, statuses);
    var found :| found in statuses && found.name == id.containerName
                 && ExtractImageID(found.imageID) == GetImageFromStatus(id, statuses);
    assert found in Statuses(pod);
  }
}
