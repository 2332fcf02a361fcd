/** The resources a removal lists: the project's containers, candidate images and volumes, each
    with the reason that keeps it, in an order that does not depend on map iteration. */
module RemovalItems {
  import opened Paths
  import opened Docker
  import opened Strings
  import opened Sorting
  import opened Discovery
  import opened RemovalPaths
  import opened RemovalPlan
  import ImageRefs

  // ----- images ------------------------------------------------------------------------------------

  function ImageTag(image: Image): string {
    image.repository + ":" + image.tag
  }

  /** A reference with a variable may mean any image. */
  predicate RefMayMean(ref: string, image: Image) {
    !Free(ref, '$') || ImageRefs.Matches(ImageTag(image), image.digest, ref)
  }

  predicate FileUsesImage(file: RemovalFile, image: Image) {
    exists i | 0 <= i < |file.images| :: RefMayMean(file.images[i], image)
  }

  function FileImageReason(reason: string, file: RemovalFile, target: RemovalFile, image: Image): string {
    if file.file == target.file then reason
    else if FileUsesImage(file, image) then "referenced by another file: " + file.name
    else if file.uncertain then "another file cannot be fully read"
    else reason
  }

  function FilesImageReason(reason: string, files: seq<RemovalFile>, target: RemovalFile, image: Image): string {
    if files == [] then reason
    else FileImageReason(FilesImageReason(reason, files[..|files| - 1], target, image), files[|files| - 1], target,
                         image)
  }

  function ImagesReason(images: seq<Image>, id: string, files: seq<RemovalFile>, target: RemovalFile): string {
    if images == [] then ""
    else
      var image, before := images[|images| - 1], ImagesReason(images[..|images| - 1], id, files, target);
      if image.id == id then FilesImageReason(before, files, target, image) else before
  }

  predicate ForeignUser(cs: seq<Container>, id: string, key: string) {
    exists i | 0 <= i < |cs| :: cs[i].imageId == id && cs[i].project != key
  }

  function ImageReason(id: string, snap: Snapshot, target: RemovalFile): string {
    if ForeignUser(snap.resources.containers, id, target.key) then "used by another container"
    else ImagesReason(snap.images, id, snap.files, target)
  }

  function ShortID(id: string): string {
    var hex := if HasPrefix(id, "sha256:") then id[7..] else id;
    if |hex| > 12 then hex[..12] else hex
  }

  function ImageName(id: string, images: seq<Image>): string {
    if images == [] then id
    else
      var image := images[|images| - 1];
      if image.id == id then ImageTag(image) + " (" + ShortID(id) + ")" else ImageName(id, images[..|images| - 1])
  }

  function ImageItem(id: string, snap: Snapshot, target: RemovalFile): Item {
    Item("image", id, ImageName(id, snap.images), "", ImageReason(id, snap, target))
  }

  method FileReasonLoop(reason0: string, files: seq<RemovalFile>, target: RemovalFile, image: Image)
    returns (reason: string)
    ensures reason == FilesImageReason(reason0, files, target, image)
  {
    hide RefMayMean;
    reason := reason0;
    for n := 0 to |files|
      invariant reason == FilesImageReason(reason0, files[..n], target, image)
    {
      assert files[..n + 1][..n] == files[..n];
      var file := files[n];
      if file.file == target.file {
        continue;
      }
      if file.uncertain {
        reason := "another file cannot be fully read";
      }
      ghost var before := reason;
      for i := 0 to |file.images|
        invariant (exists j :: 0 <= j < i && RefMayMean(file.images[j], image)) ==>
                    reason == "referenced by another file: " + file.name
        invariant (forall j :: 0 <= j < i ==> !RefMayMean(file.images[j], image)) ==> reason == before
      {
        if RefMayMean(file.images[i], image) {
          reason := "referenced by another file: " + file.name;
        }
      }
    }
    assert files[..|files|] == files;
  }

  method BuildImageItem(id: string, snap: Snapshot, target: RemovalFile) returns (item: Item)
    ensures item == ImageItem(id, snap, target)
  {
    var name, reason := id, "";
    for n := 0 to |snap.images|
      invariant name == ImageName(id, snap.images[..n])
      invariant reason == ImagesReason(snap.images[..n], id, snap.files, target)
    {
      var image := snap.images[n];
      assert snap.images[..n + 1][..n] == snap.images[..n];
      if image.id == id {
        name := ImageTag(image) + " (" + ShortID(id) + ")";
        reason := FileReasonLoop(reason, snap.files, target, image);
      }
    }
    assert snap.images[..|snap.images|] == snap.images;
    if ForeignUser(snap.resources.containers, id, target.key) {
      reason := "used by another container";
    }
    item := Item("image", id, name, "", reason);
  }

  predicate TargetUsesImage(target: RemovalFile, image: Image) {
    exists i | 0 <= i < |target.images| :: ImageRefs.Matches(ImageTag(image), image.digest, target.images[i])
  }

  function OwnImages(cs: seq<Container>, key: string): set<string> {
    if cs == [] then {}
    else
      var c := cs[|cs| - 1];
      OwnImages(cs[..|cs| - 1], key) + if c.project == key then {c.imageId} else {}
  }

  function NamedImages(images: seq<Image>, target: RemovalFile): set<string> {
    if images == [] then {}
    else
      var image := images[|images| - 1];
      NamedImages(images[..|images| - 1], target) + if TargetUsesImage(target, image) then {image.id} else {}
  }

  function Candidates(snap: Snapshot, target: RemovalFile): set<string> {
    OwnImages(snap.resources.containers, target.key) + NamedImages(snap.images, target)
  }

  method CollectCandidates(snap: Snapshot, target: RemovalFile) returns (ids: set<string>)
    ensures ids == Candidates(snap, target)
  {
    hide TargetUsesImage;
    ids := {};
    var cs, images := snap.resources.containers, snap.images;
    for n := 0 to |cs|
      invariant ids == OwnImages(cs[..n], target.key)
    {
      assert cs[..n + 1][..n] == cs[..n];
      if cs[n].project == target.key {
        ids := ids + {cs[n].imageId};
      }
    }
    assert cs[..|cs|] == cs;
    ghost var own := ids;
    for n := 0 to |images|
      invariant ids == own + NamedImages(images[..n], target)
    {
      assert images[..n + 1][..n] == images[..n];
      if TargetUsesImage(target, images[n]) {
        ids := ids + {images[n].id};
      }
    }
    assert images[..|images|] == images;
  }

  ghost function ImageBag(ids: set<string>, snap: Snapshot, target: RemovalFile): multiset<Item> {
    multiset(set id | id in ids :: ImageItem(id, snap, target))
  }

  lemma ImageBagGrows(ids: set<string>, id: string, snap: Snapshot, target: RemovalFile)
    requires id !in ids
    ensures ImageBag(ids + {id}, snap, target) == ImageBag(ids, snap, target) + multiset{ImageItem(id, snap, target)}
  {
    var before := set x | x in ids :: ImageItem(x, snap, target);
    assert ImageItem(id, snap, target) !in before;
    assert (set x | x in ids + {id} :: ImageItem(x, snap, target)) == before + {ImageItem(id, snap, target)};
  }

  /** The candidates are visited in any order, as a map is. */
  method BuildImageItems(snap: Snapshot, target: RemovalFile) returns (items: seq<Item>)
    ensures multiset(items) == ImageBag(Candidates(snap, target), snap, target)
  {
    var ids := CollectCandidates(snap, target);
    ghost var done: set<string> := {};
    items := [];
    while ids != {}
      invariant done + ids == Candidates(snap, target) && done !! ids
      invariant multiset(items) == ImageBag(done, snap, target)
      decreases |ids|
    {
      var id :| id in ids;
      var item := BuildImageItem(id, snap, target);
      ImageBagGrows(done, id, snap, target);
      items := items + [item];
      done := done + {id};
      ids := ids - {id};
    }
    assert done == Candidates(snap, target);
  }

  // ----- volumes ---------------------------------------------------------------------------------------

  predicate MountsVolume(c: Container, name: string) {
    exists i | 0 <= i < |c.mounts| :: c.mounts[i].name == name
  }

  predicate ForeignMount(cs: seq<Container>, name: string, key: string) {
    exists i | 0 <= i < |cs| :: cs[i].project != key && MountsVolume(cs[i], name)
  }

  predicate FileUsesVolume(file: RemovalFile, name: string) {
    exists i | 0 <= i < |file.volumes| :: file.volumes[i] == name
  }

  function FilesVolumeReason(reason: string, files: seq<RemovalFile>, target: RemovalFile, name: string): string {
    if files == [] then reason
    else
      var file, before := files[|files| - 1], FilesVolumeReason(reason, files[..|files| - 1], target, name);
      if file.file == target.file then before
      else if FileUsesVolume(file, name) then "referenced by another file"
      else if file.uncertain then "another file cannot be fully read"
      else before
  }

  function VolumeReason(name: string, snap: Snapshot, target: RemovalFile): string {
    FilesVolumeReason(
      if ForeignMount(snap.resources.containers, name, target.key) then "used by another container" else "",
      snap.files, target, name)
  }

  function VolumeItem(name: string, snap: Snapshot, target: RemovalFile): Item {
    Item("volume", name, name, "", VolumeReason(name, snap, target))
  }

  function VolumeItems(volumes: seq<Volume>, snap: Snapshot, target: RemovalFile): seq<Item> {
    if volumes == [] then []
    else
      var v := volumes[|volumes| - 1];
      VolumeItems(volumes[..|volumes| - 1], snap, target)
        + if v.project == target.key then [VolumeItem(v.name, snap, target)] else []
  }

  /** One line for every mount of the volume in the project's containers. */
  function VolumeLines(cs: seq<Container>, key: string, name: string): seq<string> {
    if cs == [] then []
    else
      var c := cs[|cs| - 1];
      VolumeLines(cs[..|cs| - 1], key, name) + if c.project == key then MountLines(c.mounts, name) else []
  }

  function MountLines(mounts: seq<Mount>, name: string): seq<string> {
    if mounts == [] then []
    else
      var m := mounts[|mounts| - 1];
      MountLines(mounts[..|mounts| - 1], name)
        + if m.kind == "volume" && m.name == name then ["volume kept: " + name] else []
  }

  function ForeignVolumeLines(volumes: seq<Volume>, cs: seq<Container>, key: string): seq<string> {
    if volumes == [] then []
    else
      var v := volumes[|volumes| - 1];
      ForeignVolumeLines(volumes[..|volumes| - 1], cs, key)
        + if v.project != key then VolumeLines(cs, key, v.name) else []
  }

  function NetworkLines(networks: seq<Network>, key: string): seq<string> {
    if networks == [] then []
    else
      var n := networks[|networks| - 1];
      NetworkLines(networks[..|networks| - 1], key) + if n.project == key then ["network kept: " + n.name] else []
  }

  method FileVolumeLoop(reason0: string, files: seq<RemovalFile>, target: RemovalFile, name: string)
    returns (reason: string)
    ensures reason == FilesVolumeReason(reason0, files, target, name)
  {
    reason := reason0;
    for n := 0 to |files|
      invariant reason == FilesVolumeReason(reason0, files[..n], target, name)
    {
      assert files[..n + 1][..n] == files[..n];
      var file := files[n];
      if file.file != target.file {
        if file.uncertain {
          reason := "another file cannot be fully read";
        }
        if FileUsesVolume(file, name) {
          reason := "referenced by another file";
        }
      }
    }
    assert files[..|files|] == files;
  }

  method BuildVolumes(snap: Snapshot, target: RemovalFile) returns (items: seq<Item>, lines: seq<string>)
    ensures items == VolumeItems(snap.resources.volumes, snap, target)
    ensures lines == ForeignVolumeLines(snap.resources.volumes, snap.resources.containers, target.key)
  {
    items, lines := [], [];
    var volumes, cs := snap.resources.volumes, snap.resources.containers;
    for n := 0 to |volumes|
      invariant items == VolumeItems(volumes[..n], snap, target)
      invariant lines == ForeignVolumeLines(volumes[..n], cs, target.key)
    {
      var v := volumes[n];
      assert volumes[..n + 1][..n] == volumes[..n];
      if v.project != target.key {
        var more := BuildVolumeLines(cs, target.key, v.name);
        lines := lines + more;
      } else {
        var reason := "";
        if ForeignMount(cs, v.name, target.key) {
          reason := "used by another container";
        }
        reason := FileVolumeLoop(reason, snap.files, target, v.name);
        items := items + [Item("volume", v.name, v.name, "", reason)];
      }
    }
    assert volumes[..|volumes|] == volumes;
  }

  method BuildVolumeLines(cs: seq<Container>, key: string, name: string) returns (lines: seq<string>)
    ensures lines == VolumeLines(cs, key, name)
  {
    lines := [];
    for n := 0 to |cs|
      invariant lines == VolumeLines(cs[..n], key, name)
    {
      var c := cs[n];
      assert cs[..n + 1][..n] == cs[..n];
      if c.project == key {
        ghost var before := lines;
        for i := 0 to |c.mounts|
          invariant lines == before + MountLines(c.mounts[..i], name)
        {
          assert c.mounts[..i + 1][..i] == c.mounts[..i];
          if c.mounts[i].kind == "volume" && c.mounts[i].name == name {
            lines := lines + ["volume kept: " + name];
          }
        }
        assert c.mounts[..|c.mounts|] == c.mounts;
      }
    }
    assert cs[..|cs|] == cs;
  }

  method BuildNetworkLines(networks: seq<Network>, key: string) returns (lines: seq<string>)
    ensures lines == NetworkLines(networks, key)
  {
    lines := [];
    for n := 0 to |networks|
      invariant lines == NetworkLines(networks[..n], key)
    {
      assert networks[..n + 1][..n] == networks[..n];
      if networks[n].project == key {
        lines := lines + ["network kept: " + networks[n].name];
      }
    }
    assert networks[..|networks|] == networks;
  }

  // ----- what an empty reason means ------------------------------------------------------------------

  /** The reference has the image's canonical tag, or is the digest Docker lists for it. */
  ghost predicate Names(ref: string, image: Image) {
    || ImageRefs.Canonical(ref) == ImageRefs.Canonical(image.repository + ":" + image.tag)
    || (image.digest != "" && ref == image.digest)
  }

  /** The file names the image, or has a variable where it could. */
  ghost predicate MayName(file: RemovalFile, image: Image) {
    exists ref :: ref in file.images && ('$' in ref || Names(ref, image))
  }

  lemma UsesMeans(file: RemovalFile, image: Image)
    ensures FileUsesImage(file, image) <==> MayName(file, image)
    ensures TargetUsesImage(file, image) <==> exists ref :: ref in file.images && Names(ref, image)
  {
    hide ImageRefs.Canonical;
    forall ref ensures RefMayMean(ref, image) <==> '$' in ref || Names(ref, image) {
      assert Free(ref, '$') <==> '$' !in ref;
    }
    hide RefMayMean, Names;
    if ref :| ref in file.images && ('$' in ref || Names(ref, image)) {
      var i :| 0 <= i < |file.images| && file.images[i] == ref;
    }
    assert forall i :: 0 <= i < |file.images| ==> file.images[i] in file.images;
  }

  ghost predicate FileSparesImage(file: RemovalFile, target: RemovalFile, image: Image) {
    file.file != target.file ==> !file.uncertain && !MayName(file, image)
  }

  /** No foreign container uses the image, and no other file names it by canonical tag, by the digest
      Docker lists or by a variable, or is uncertain. */
  ghost predicate ImageFree(id: string, snap: Snapshot, target: RemovalFile) {
    && (forall c :: c in snap.resources.containers && c.imageId == id ==> c.project == target.key)
    && forall i, j :: 0 <= i < |snap.images| && snap.images[i].id == id && 0 <= j < |snap.files| ==>
         FileSparesImage(snap.files[j], target, snap.images[i])
  }

  lemma {:induction false} FilesImageReasonMeans(reason: string, files: seq<RemovalFile>, target: RemovalFile,
                                                 image: Image)
    ensures FilesImageReason(reason, files, target, image) == "" <==>
            reason == "" && forall j :: 0 <= j < |files| ==> FileSparesImage(files[j], target, image)
  {
    hide FileUsesImage, MayName;
    if files != [] {
      UsesMeans(files[|files| - 1], image);
      FilesImageReasonMeans(reason, files[..|files| - 1], target, image);
    }
  }

  lemma {:induction false} ImagesReasonMeans(images: seq<Image>, id: string, files: seq<RemovalFile>,
                                             target: RemovalFile)
    ensures ImagesReason(images, id, files, target) == "" <==>
            forall i, j :: 0 <= i < |images| && images[i].id == id && 0 <= j < |files| ==>
              FileSparesImage(files[j], target, images[i])
  {
    hide FileSparesImage, FilesImageReason;
    if images != [] {
      var rest, last := images[..|images| - 1], images[|images| - 1];
      ImagesReasonMeans(rest, id, files, target);
      FilesImageReasonMeans(ImagesReason(rest, id, files, target), files, target, last);
    }
  }

  lemma ImageReasonMeans(id: string, snap: Snapshot, target: RemovalFile)
    ensures ImageReason(id, snap, target) == "" <==> ImageFree(id, snap, target)
  {
    ImagesReasonMeans(snap.images, id, snap.files, target);
    var cs := snap.resources.containers;
    assert forall i :: 0 <= i < |cs| ==> cs[i] in cs;
    hide ImagesReason, FileSparesImage;
  }

  ghost predicate FileSparesVolume(file: RemovalFile, target: RemovalFile, name: string) {
    file.file != target.file ==> !file.uncertain && name !in file.volumes
  }

  /** No foreign container mounts the volume, and no other file names it or is uncertain. */
  ghost predicate VolumeFree(name: string, snap: Snapshot, target: RemovalFile) {
    && (forall c :: c in snap.resources.containers && c.project != target.key ==>
          forall m :: m in c.mounts ==> m.name != name)
    && forall j :: 0 <= j < |snap.files| ==> FileSparesVolume(snap.files[j], target, name)
  }

  lemma {:induction false} FilesVolumeReasonMeans(reason: string, files: seq<RemovalFile>, target: RemovalFile,
                                                  name: string)
    ensures FilesVolumeReason(reason, files, target, name) == "" <==>
            reason == "" && forall j :: 0 <= j < |files| ==> FileSparesVolume(files[j], target, name)
  {
    if files != [] { FilesVolumeReasonMeans(reason, files[..|files| - 1], target, name); }
  }

  lemma ForeignMountMeans(cs: seq<Container>, name: string, key: string)
    ensures ForeignMount(cs, name, key) <==>
            exists c, m :: c in cs && c.project != key && m in c.mounts && m.name == name
  {
    if ForeignMount(cs, name, key) {
      var i :| 0 <= i < |cs| && cs[i].project != key && MountsVolume(cs[i], name);
      var j :| 0 <= j < |cs[i].mounts| && cs[i].mounts[j].name == name;
      assert cs[i] in cs && cs[i].mounts[j] in cs[i].mounts;
    }
  }

  lemma VolumeReasonMeans(name: string, snap: Snapshot, target: RemovalFile)
    ensures VolumeReason(name, snap, target) == "" <==> VolumeFree(name, snap, target)
  {
    ForeignMountMeans(snap.resources.containers, name, target.key);
    hide ForeignMount;
    FilesVolumeReasonMeans(
      if ForeignMount(snap.resources.containers, name, target.key) then "used by another container" else "",
      snap.files, target, name);
  }

  // ----- the plan -----------------------------------------------------------------------------------------

  function ItemKey(item: Item): string {
    item.kind + item.id
  }

  function ItemOrder(): (Item, Item) -> bool {
    (a: Item, b: Item) => StrLeq(ItemKey(a), ItemKey(b))
  }

  function TextOrder(): (string, string) -> bool {
    (a: string, b: string) => StrLeq(a, b)
  }

  lemma OrdersAreOrders()
    ensures Total(ItemOrder()) && Transitive(ItemOrder())
    ensures Total(TextOrder()) && Transitive(TextOrder())
  {
    forall a, b ensures StrLeq(a, b) || StrLeq(b, a) { StrLeqTotal(a, b); }
    forall a, b, c | StrLeq(a, b) && StrLeq(b, c) ensures StrLeq(a, c) { StrLeqTransitive(a, b, c); }
  }

  ghost function ItemBag(snap: Snapshot, target: RemovalFile): multiset<Item> {
    multiset(ContainerItems(snap.resources.containers, target.key))
    + ImageBag(Candidates(snap, target), snap, target)
    + multiset(VolumeItems(snap.resources.volumes, snap, target))
  }

  ghost function RetainedBag(snap: Snapshot, target: RemovalFile, hostDirectory: Path): multiset<string> {
    multiset(ContainerLines(snap.resources.containers, target.key, hostDirectory))
    + multiset(ForeignVolumeLines(snap.resources.volumes, snap.resources.containers, target.key))
    + multiset(NetworkLines(snap.resources.networks, target.key))
  }

  ghost predicate IsPlanFor(p: Plan, snap: Snapshot, target: RemovalFile, config: Config) {
    var mapper := MapperOf(snap.resources.containers, config.hostname);
    && p.key == target.key && p.name == target.name && p.file == target.file && p.directory == target.workingDir
    && p.hostDirectory == Host(mapper.mounts, target.workingDir) && p.hostFile == Host(mapper.mounts, target.file)
    && AllBelong(snap.resources.containers, target.key, config.hostname, mapper.mounts, p.hostDirectory, p.hostFile)
    && p.blocked == DirectoryBlock(snap, target, config, mapper, p.hostDirectory)
    && p.configSha == target.sha
    && SortedBy(p.items, ItemOrder()) && multiset(p.items) == ItemBag(snap, target)
    && SortedBy(p.retained, TextOrder()) && multiset(p.retained) == RetainedBag(snap, target, p.hostDirectory)
  }

  /** `p` is a plan computed from this reading of the world. */
  ghost predicate IsPlan(p: Plan, snap: Snapshot, key: string, config: Config) {
    exists k: nat :: OnlyFileOf(snap.files, key, k) && IsPlanFor(p, snap, snap.files[k], config)
  }

  // ----- the plan is a function of what was read ------------------------------------------------------------

  /** Docker names each container and each volume once. */
  ghost predicate DockerNamesOnce(r: Resources) {
    && (forall i, j :: 0 <= i < j < |r.containers| ==> r.containers[i].id != r.containers[j].id)
    && (forall i, j :: 0 <= i < j < |r.volumes| ==> r.volumes[i].name != r.volumes[j].name)
  }

  lemma {:induction false} ContainerItemsAre(cs: seq<Container>, key: string)
    ensures forall x :: x in ContainerItems(cs, key) ==>
              x.kind == "container" && exists i :: 0 <= i < |cs| && cs[i].project == key && x == ContainerItem(cs[i])
  {
    if cs != [] {
      ContainerItemsAre(cs[..|cs| - 1], key);
      forall x | x in ContainerItems(cs, key)
        ensures exists i :: 0 <= i < |cs| && cs[i].project == key && x == ContainerItem(cs[i])
      {
        if x in ContainerItems(cs[..|cs| - 1], key) {
          var i :| 0 <= i < |cs| - 1 && cs[..|cs| - 1][i].project == key && x == ContainerItem(cs[..|cs| - 1][i]);
          assert x == ContainerItem(cs[i]);
        }
      }
    }
  }

  lemma {:induction false} VolumeItemsAre(volumes: seq<Volume>, snap: Snapshot, target: RemovalFile)
    ensures forall x :: x in VolumeItems(volumes, snap, target) ==> x == VolumeItem(x.id, snap, target)
  {
    if volumes != [] { VolumeItemsAre(volumes[..|volumes| - 1], snap, target); }
  }

  /** Every listed item, by kind. */
  lemma ItemBagKinds(snap: Snapshot, target: RemovalFile, x: Item)
    requires x in ItemBag(snap, target)
    ensures x.kind == "container" || x == ImageItem(x.id, snap, target) || x == VolumeItem(x.id, snap, target)
    ensures x.kind == "container" ==>
      exists i :: 0 <= i < |snap.resources.containers| && snap.resources.containers[i].project == target.key
        && x == ContainerItem(snap.resources.containers[i])
  {
    ContainerItemsAre(snap.resources.containers, target.key);
    VolumeItemsAre(snap.resources.volumes, snap, target);
    if x !in ContainerItems(snap.resources.containers, target.key)
      && x !in VolumeItems(snap.resources.volumes, snap, target) {
      assert x in (set id | id in Candidates(snap, target) :: ImageItem(id, snap, target));
    }
  }

  lemma KeyDecides(a: Item, b: Item)
    requires a.kind in {"container", "image", "volume"} && b.kind in {"container", "image", "volume"}
    requires ItemKey(a) == ItemKey(b)
    ensures a.kind == b.kind && a.id == b.id
  {
    assert ItemKey(a)[0] == a.kind[0] && ItemKey(b)[0] == b.kind[0];
    assert ItemKey(a)[|a.kind|..] == a.id && ItemKey(b)[|b.kind|..] == b.id;
  }

  lemma SameKeySameItem(snap: Snapshot, target: RemovalFile, a: Item, b: Item)
    requires DockerNamesOnce(snap.resources) && a in ItemBag(snap, target) && b in ItemBag(snap, target)
    requires ItemKey(a) == ItemKey(b)
    ensures a == b
  {
    ItemBagKinds(snap, target, a);
    ItemBagKinds(snap, target, b);
    KeyDecides(a, b);
  }

  lemma ItemsDetermined(p: seq<Item>, q: seq<Item>, snap: Snapshot, target: RemovalFile)
    requires DockerNamesOnce(snap.resources)
    requires SortedBy(p, ItemOrder()) && SortedBy(q, ItemOrder())
    requires multiset(p) == multiset(q) == ItemBag(snap, target)
    ensures p == q
  {
    OrdersAreOrders();
    var bag := ItemBag(snap, target);
    forall a, b | a in bag && b in bag && ItemOrder()(a, b) && ItemOrder()(b, a) ensures a == b {
      StrLeqTotal(ItemKey(a), ItemKey(b));
      SameKeySameItem(snap, target, a, b);
    }
    SortedPermutationUnique(p, q, ItemOrder());
  }

  lemma LinesDetermined(p: seq<string>, q: seq<string>)
    requires SortedBy(p, TextOrder()) && SortedBy(q, TextOrder()) && multiset(p) == multiset(q)
    ensures p == q
  {
    OrdersAreOrders();
    forall a, b | TextOrder()(a, b) && TextOrder()(b, a) ensures a == b { StrLeqTotal(a, b); }
    SortedPermutationUnique(p, q, TextOrder());
  }

  /** Two computations from the same reading give the same plan, in whatever order the candidate
      images were visited; so their fingerprints agree. */
  lemma PlanIsDetermined(p: Plan, q: Plan, snap: Snapshot, key: string, config: Config)
    requires DockerNamesOnce(snap.resources)
    requires IsPlan(p, snap, key, config) && IsPlan(q, snap, key, config)
    ensures p == q
  {
    var k: nat :| OnlyFileOf(snap.files, key, k) && IsPlanFor(p, snap, snap.files[k], config);
    var target := snap.files[k];
    var l: nat :| OnlyFileOf(snap.files, key, l) && IsPlanFor(q, snap, snap.files[l], config);
    assert l == k;
    ItemsDetermined(p.items, q.items, snap, target);
    LinesDetermined(p.retained, q.retained);
  }
}
