/** What a removal plan lists, told from the readings it was made from. */
module PlanContents {
  import opened Paths
  import opened Docker
  import opened Strings
  import opened Discovery
  import opened RemovalPaths
  import opened RemovalPlan
  import opened RemovalItems

  // ----- containers ---------------------------------------------------------------------------------

  ghost predicate ContainerListed(x: Item, cs: seq<Container>, key: string) {
    exists c :: c in cs && c.project == key && x == Item("container", c.id, c.names, c.state, "")
  }

  lemma {:induction false} ContainersListed(cs: seq<Container>, key: string)
    ensures forall x :: x in ContainerItems(cs, key) <==> ContainerListed(x, cs, key)
  {
    if cs != [] {
      var rest, last := cs[..|cs| - 1], cs[|cs| - 1];
      ContainersListed(rest, key);
      assert cs == rest + [last];
      forall x
        ensures ContainerListed(x, cs, key) <==>
                ContainerListed(x, rest, key) || (last.project == key && x == ContainerItem(last))
      {
      }
      hide ContainerListed;
    }
  }

  // ----- images ---------------------------------------------------------------------------------------

  /** A container of the project runs from the image, or the project's file names it. */
  ghost predicate Candidate(id: string, snap: Snapshot, target: RemovalFile) {
    || (exists c :: c in snap.resources.containers && c.project == target.key && c.imageId == id)
    || (exists image :: image in snap.images && image.id == id && NamedBy(image, target))
  }

  lemma {:induction false} OwnImagesAre(cs: seq<Container>, key: string, id: string)
    ensures id in OwnImages(cs, key) <==> exists c :: c in cs && c.project == key && c.imageId == id
  {
    if cs != [] {
      OwnImagesAre(cs[..|cs| - 1], key, id);
      assert cs == cs[..|cs| - 1] + [cs[|cs| - 1]];
    }
  }

  lemma {:induction false} NamedImagesAre(images: seq<Image>, target: RemovalFile, id: string)
    ensures id in NamedImages(images, target) <==>
            exists image :: image in images && image.id == id && NamedBy(image, target)
  {
    hide NamedBy, TargetUsesImage;
    if images != [] {
      var rest, last := images[..|images| - 1], images[|images| - 1];
      NamedImagesAre(rest, target, id);
      UsesIsNamed(last, target);
      assert images == rest + [last];
    }
  }

  /** A reference in the file names the image. */
  ghost predicate NamedBy(image: Image, file: RemovalFile) {
    exists ref :: ref in file.images && Names(ref, image)
  }

  lemma UsesIsNamed(image: Image, file: RemovalFile)
    ensures TargetUsesImage(file, image) <==> NamedBy(image, file)
  {
    UsesMeans(file, image);
  }

  lemma CandidatesAre(snap: Snapshot, target: RemovalFile, id: string)
    ensures id in Candidates(snap, target) <==> Candidate(id, snap, target)
  {
    OwnImagesAre(snap.resources.containers, target.key, id);
    NamedImagesAre(snap.images, target, id);
  }

  /** At most twelve characters of the identifier, without the name of the hash. */
  ghost predicate IsShort(short: string, id: string) {
    var hex := if "sha256:" <= id then id[7..] else id;
    short <= hex && |short| == if |hex| < 12 then |hex| else 12
  }

  /** This is the last time Docker lists the image. */
  ghost predicate LastListed(images: seq<Image>, id: string, i: nat) {
    i < |images| && images[i].id == id && forall j :: i < j < |images| ==> images[j].id != id
  }

  /** An image is listed under the tag Docker lists last for it, or under its identifier if there is none. */
  ghost predicate Titled(name: string, id: string, images: seq<Image>) {
    && ((forall image :: image in images ==> image.id != id) ==> name == id)
    && forall i: nat :: LastListed(images, id, i) ==>
         exists short :: IsShort(short, id) && name == images[i].repository + ":" + images[i].tag + " (" + short + ")"
  }

  lemma {:induction false} ImageNameTitles(id: string, images: seq<Image>)
    ensures Titled(ImageName(id, images), id, images)
  {
    hide Titled;
    if images == [] {
      assert Titled(id, id, []) by { NoTitle(id); }
    } else {
      var n := |images| - 1;
      if images[n].id == id {
        LastTitle(id, images);
      } else {
        ImageNameTitles(id, images[..n]);
        SameTitle(ImageName(id, images[..n]), id, images[..n], images[n]);
        assert images == images[..n] + [images[n]];
      }
    }
  }

  lemma NoTitle(id: string)
    ensures Titled(id, id, [])
  {
  }

  lemma LastTitle(id: string, images: seq<Image>)
    requires images != [] && images[|images| - 1].id == id
    ensures Titled(ImageName(id, images), id, images)
  {
    var n := |images| - 1;
    assert images[n] in images && IsShort(ShortID(id), id);
    assert forall i: nat :: LastListed(images, id, i) ==> i == n;
    hide IsShort, ShortID, LastListed;
  }

  lemma SameTitle(name: string, id: string, rest: seq<Image>, image: Image)
    requires Titled(name, id, rest) && image.id != id
    ensures Titled(name, id, rest + [image])
  {
    hide IsShort;
    var images := rest + [image];
    forall i: nat | LastListed(images, id, i) ensures LastListed(rest, id, i) && images[i] == rest[i] {
      assert forall j :: 0 <= j < |rest| ==> images[j] == rest[j];
    }
    hide LastListed;
  }

  ghost predicate ImageListed(x: Item, snap: Snapshot, target: RemovalFile) {
    && x.kind == "image" && x.state == "" && Candidate(x.id, snap, target) && Titled(x.name, x.id, snap.images)
    && (x.reason == "" <==> ImageFree(x.id, snap, target))
  }

  lemma ImageItemIsListed(id: string, snap: Snapshot, target: RemovalFile)
    requires Candidate(id, snap, target)
    ensures ImageListed(ImageItem(id, snap, target), snap, target)
  {
    ImageNameTitles(id, snap.images);
    ImageReasonMeans(id, snap, target);
    hide Candidate, Titled, ImageFree, ImageName, ImageReason;
  }

  // ----- volumes ----------------------------------------------------------------------------------------

  /** The volume carries the project's label. */
  ghost predicate OwnVolume(name: string, volumes: seq<Volume>, key: string) {
    exists v :: v in volumes && v.name == name && v.project == key
  }

  lemma {:induction false} VolumesListed(volumes: seq<Volume>, snap: Snapshot, target: RemovalFile)
    ensures forall x :: x in VolumeItems(volumes, snap, target) <==>
              x == VolumeItem(x.id, snap, target) && OwnVolume(x.id, volumes, target.key)
  {
    if volumes != [] {
      var rest, last := volumes[..|volumes| - 1], volumes[|volumes| - 1];
      VolumesListed(rest, snap, target);
      assert volumes == rest + [last];
      hide VolumeReason;
      forall id
        ensures OwnVolume(id, volumes, target.key) <==>
                OwnVolume(id, rest, target.key) || (last.name == id && last.project == target.key)
      {
      }
      hide OwnVolume;
    }
  }

  ghost predicate VolumeListed(x: Item, snap: Snapshot, target: RemovalFile) {
    && x.kind == "volume" && x.state == "" && x.name == x.id
    && OwnVolume(x.id, snap.resources.volumes, target.key) && (x.reason == "" <==> VolumeFree(x.id, snap, target))
  }

  // ----- the items of a plan ------------------------------------------------------------------------------

  /** Everything a plan lists is a container or a volume with the project's label, or an image it may
      have brought; and all of these are listed. */
  ghost predicate ListsExactly(items: seq<Item>, snap: Snapshot, target: RemovalFile) {
    && (forall x :: x in items ==>
          || ContainerListed(x, snap.resources.containers, target.key)
          || ImageListed(x, snap, target) || VolumeListed(x, snap, target))
    && (forall x :: ContainerListed(x, snap.resources.containers, target.key) ==> x in items)
    && (forall id :: Candidate(id, snap, target) ==> exists x :: x in items && x.kind == "image" && x.id == id)
    && (forall id :: OwnVolume(id, snap.resources.volumes, target.key) ==>
          exists x :: x in items && x.kind == "volume" && x.id == id)
  }

  lemma PlanListsExactly(p: Plan, snap: Snapshot, target: RemovalFile, config: Config)
    requires IsPlanFor(p, snap, target, config)
    ensures ListsExactly(p.items, snap, target)
  {
    ItemsAreBag(p, snap, target, config);
    hide IsPlanFor;
    BagIsListed(snap, target);
    ListedIsInBag(snap, target);
    hide ItemBag, ImageListed, VolumeListed, ContainerListed, Candidate, OwnVolume;
  }

  lemma ItemsAreBag(p: Plan, snap: Snapshot, target: RemovalFile, config: Config)
    requires IsPlanFor(p, snap, target, config)
    ensures forall x :: x in p.items <==> x in ItemBag(snap, target)
  {
    assert forall x :: x in p.items <==> x in multiset(p.items);
    hide ItemBag, RetainedBag, DirectoryBlock, AllBelong;
  }

  lemma BagIsListed(snap: Snapshot, target: RemovalFile)
    ensures forall x :: x in ItemBag(snap, target) ==>
              || ContainerListed(x, snap.resources.containers, target.key)
              || ImageListed(x, snap, target) || VolumeListed(x, snap, target)
  {
    ContainersListed(snap.resources.containers, target.key);
    VolumesListed(snap.resources.volumes, snap, target);
    forall x | x in ItemBag(snap, target)
      ensures ContainerListed(x, snap.resources.containers, target.key)
           || ImageListed(x, snap, target) || VolumeListed(x, snap, target)
    {
      if x in VolumeItems(snap.resources.volumes, snap, target) {
        VolumeReasonMeans(x.id, snap, target);
      } else if x !in ContainerItems(snap.resources.containers, target.key) {
        assert x in (set id | id in Candidates(snap, target) :: ImageItem(id, snap, target));
        CandidatesAre(snap, target, x.id);
        ImageItemIsListed(x.id, snap, target);
      }
    }
  }

  lemma ListedIsInBag(snap: Snapshot, target: RemovalFile)
    ensures forall x :: ContainerListed(x, snap.resources.containers, target.key) ==> x in ItemBag(snap, target)
    ensures forall id :: Candidate(id, snap, target) ==> ImageItem(id, snap, target) in ItemBag(snap, target)
    ensures forall id :: OwnVolume(id, snap.resources.volumes, target.key) ==>
              VolumeItem(id, snap, target) in ItemBag(snap, target)
  {
    ContainersListed(snap.resources.containers, target.key);
    VolumesListed(snap.resources.volumes, snap, target);
    forall id | Candidate(id, snap, target) ensures ImageItem(id, snap, target) in ItemBag(snap, target) {
      CandidatesAre(snap, target, id);
      assert ImageItem(id, snap, target) in (set id | id in Candidates(snap, target) :: ImageItem(id, snap, target));
    }
    forall id | OwnVolume(id, snap.resources.volumes, target.key)
      ensures VolumeItem(id, snap, target) in ItemBag(snap, target)
    {
      assert VolumeItem(id, snap, target) in VolumeItems(snap.resources.volumes, snap, target);
    }
  }

  // ----- nothing is listed twice ------------------------------------------------------------------------------

  ghost predicate NoRepeats(items: seq<Item>) {
    forall i, j :: 0 <= i < j < |items| ==> items[i] != items[j]
  }

  lemma {:induction false} CountsOnce(items: seq<Item>, x: Item)
    requires NoRepeats(items)
    ensures multiset(items)[x] <= 1
  {
    if items == [] {
      assert multiset(items) == multiset{};
    } else {
      var rest, last := items[..|items| - 1], items[|items| - 1];
      assert items == rest + [last];
      assert forall i :: 0 <= i < |rest| ==> rest[i] == items[i];
      CountsOnce(rest, x);
      assert last !in rest;
      assert multiset(rest)[last] == 0 by { assert last !in multiset(rest); }
      assert multiset(items) == multiset(rest) + multiset{last};
    }
  }

  lemma CountsTwice(items: seq<Item>, i: nat, j: nat)
    requires i < j < |items| && items[i] == items[j]
    ensures multiset(items)[items[i]] >= 2
  {
    assert items == items[..j] + items[j..];
    assert items[i] == items[..j][i] && items[j] == items[j..][0];
    assert items[i] in items[..j] && items[i] in items[j..];
    assert multiset(items[..j])[items[i]] > 0 && multiset(items[j..])[items[i]] > 0;
  }

  lemma OneMore(items: seq<Item>, x: Item)
    requires NoRepeats(items) && x !in items
    ensures NoRepeats(items + [x])
  {
    assert forall i :: 0 <= i < |items| ==> (items + [x])[i] == items[i] && items[i] in items;
  }

  lemma NoContainerTwice(rest: seq<Container>, last: Container, key: string)
    requires forall c :: c in rest ==> c.id != last.id
    ensures ContainerItem(last) !in ContainerItems(rest, key)
  {
    ContainersListed(rest, key);
  }

  lemma {:induction false} ContainersOnce(cs: seq<Container>, key: string)
    requires forall i, j :: 0 <= i < j < |cs| ==> cs[i].id != cs[j].id
    ensures NoRepeats(ContainerItems(cs, key))
  {
    if cs != [] {
      var rest := cs[..|cs| - 1];
      ContainersOnce(rest, key);
      ContainersListed(rest, key);
      NoContainerTwice(rest, cs[|cs| - 1], key);
      OneMore(ContainerItems(rest, key), ContainerItem(cs[|cs| - 1]));
    }
  }

  lemma {:induction false} VolumesOnce(volumes: seq<Volume>, snap: Snapshot, target: RemovalFile)
    requires forall i, j :: 0 <= i < j < |volumes| ==> volumes[i].name != volumes[j].name
    ensures NoRepeats(VolumeItems(volumes, snap, target))
  {
    hide VolumeReason;
    if volumes != [] {
      var rest := volumes[..|volumes| - 1];
      VolumesOnce(rest, snap, target);
      VolumesListed(rest, snap, target);
      assert VolumeItem(volumes[|volumes| - 1].name, snap, target) !in VolumeItems(rest, snap, target);
      OneMore(VolumeItems(rest, snap, target), VolumeItem(volumes[|volumes| - 1].name, snap, target));
    }
  }

  /** Nothing is listed twice, so nothing is removed twice. */
  lemma PlanListsOnce(p: Plan, snap: Snapshot, target: RemovalFile, config: Config)
    requires IsPlanFor(p, snap, target, config) && DockerNamesOnce(snap.resources)
    ensures forall i, j :: 0 <= i < j < |p.items| ==> p.items[i] != p.items[j]
  {
    var a := ContainerItems(snap.resources.containers, target.key);
    var b := ImageBag(Candidates(snap, target), snap, target);
    var c := VolumeItems(snap.resources.volumes, snap, target);
    assert multiset(p.items) == multiset(a) + b + multiset(c);
    ContainersOnce(snap.resources.containers, target.key);
    VolumesOnce(snap.resources.volumes, snap, target);
    ContainersListed(snap.resources.containers, target.key);
    VolumesListed(snap.resources.volumes, snap, target);
    forall x ensures multiset(p.items)[x] <= 1 {
      CountsOnce(a, x);
      CountsOnce(c, x);
      assert b[x] <= 1 && (x in b ==> x.kind == "image");
      assert (x in a ==> x.kind == "container") && (x in c ==> x.kind == "volume");
      assert (x in a <==> multiset(a)[x] > 0) && (x in c <==> multiset(c)[x] > 0);
    }
    forall i, j | 0 <= i < j < |p.items| ensures p.items[i] != p.items[j] {
      if p.items[i] == p.items[j] { CountsTwice(p.items, i, j); }
    }
  }

  // ----- the retained lines ---------------------------------------------------------------------------------

  /** A bind mount of the container that lies outside the directory on the host. */
  ghost predicate OutsideMount(line: string, c: Container, key: string, hostDirectory: Path) {
    c.project == key
    && exists m :: m in c.mounts && m.kind == "bind" && !PathContains(hostDirectory, m.source)
         && line == "mount outside the directory kept: " + Render(m.source)
  }

  lemma {:induction false} OutsideLinesAre(mounts: seq<Mount>, hostDirectory: Path, line: string)
    ensures line in OutsideLines(mounts, hostDirectory) <==>
            exists m :: m in mounts && m.kind == "bind" && !PathContains(hostDirectory, m.source)
              && line == "mount outside the directory kept: " + Render(m.source)
  {
    hide PathContains, Render;
    if mounts != [] {
      OutsideLinesAre(mounts[..|mounts| - 1], hostDirectory, line);
      assert mounts == mounts[..|mounts| - 1] + [mounts[|mounts| - 1]];
    }
  }

  lemma {:induction false} ContainerLinesAre(cs: seq<Container>, key: string, hostDirectory: Path, line: string)
    ensures line in ContainerLines(cs, key, hostDirectory) <==>
            exists c :: c in cs && OutsideMount(line, c, key, hostDirectory)
  {
    hide OutsideMount;
    if cs != [] {
      var last := cs[|cs| - 1];
      ContainerLinesAre(cs[..|cs| - 1], key, hostDirectory, line);
      OutsideLinesAre(last.mounts, hostDirectory, line);
      OutsideMountIs(line, last, key, hostDirectory);
      assert cs == cs[..|cs| - 1] + [last];
      hide OutsideLines;
    }
  }

  lemma OutsideMountIs(line: string, c: Container, key: string, hostDirectory: Path)
    ensures OutsideMount(line, c, key, hostDirectory) <==>
            c.project == key
            && exists m :: m in c.mounts && m.kind == "bind" && !PathContains(hostDirectory, m.source)
                 && line == "mount outside the directory kept: " + Render(m.source)
  {
  }

  /** A container of the project mounts the volume. */
  ghost predicate MountedByProject(name: string, cs: seq<Container>, key: string) {
    exists c, m :: c in cs && c.project == key && m in c.mounts && m.kind == "volume" && m.name == name
  }

  lemma {:induction false} MountLinesAre(mounts: seq<Mount>, name: string, line: string)
    ensures line in MountLines(mounts, name) <==>
            line == "volume kept: " + name && exists m :: m in mounts && m.kind == "volume" && m.name == name
  {
    if mounts != [] {
      MountLinesAre(mounts[..|mounts| - 1], name, line);
      assert mounts == mounts[..|mounts| - 1] + [mounts[|mounts| - 1]];
    }
  }

  lemma {:induction false} VolumeLinesAre(cs: seq<Container>, key: string, name: string, line: string)
    ensures line in VolumeLines(cs, key, name) <==>
            line == "volume kept: " + name && MountedByProject(name, cs, key)
  {
    if cs != [] {
      var rest, last := cs[..|cs| - 1], cs[|cs| - 1];
      VolumeLinesAre(rest, key, name, line);
      MountLinesAre(last.mounts, name, line);
      assert cs == rest + [last];
      hide MountLines;
    }
  }

  lemma {:induction false} ForeignLinesAre(volumes: seq<Volume>, cs: seq<Container>, key: string, line: string)
    ensures line in ForeignVolumeLines(volumes, cs, key) <==>
            exists v :: v in volumes && v.project != key && MountedByProject(v.name, cs, key)
              && line == "volume kept: " + v.name
  {
    hide MountedByProject;
    if volumes != [] {
      var rest, last := volumes[..|volumes| - 1], volumes[|volumes| - 1];
      ForeignLinesAre(rest, cs, key, line);
      VolumeLinesAre(cs, key, last.name, line);
      assert volumes == rest + [last];
      hide VolumeLines;
    }
  }

  lemma {:induction false} NetworkLinesAre(networks: seq<Network>, key: string, line: string)
    ensures line in NetworkLines(networks, key) <==>
            exists n :: n in networks && n.project == key && line == "network kept: " + n.name
  {
    if networks != [] {
      NetworkLinesAre(networks[..|networks| - 1], key, line);
      assert networks == networks[..|networks| - 1] + [networks[|networks| - 1]];
    }
  }

  /** The plan says of exactly these things that they stay: the bind mounts of the project's containers
      outside its directory, the volumes of others its containers mount, and its networks. */
  lemma PlanRetainsExactly(p: Plan, snap: Snapshot, target: RemovalFile, config: Config, line: string)
    requires IsPlanFor(p, snap, target, config)
    ensures line in p.retained <==>
            || (exists c :: c in snap.resources.containers && OutsideMount(line, c, target.key, p.hostDirectory))
            || (exists v :: v in snap.resources.volumes && v.project != target.key
                   && MountedByProject(v.name, snap.resources.containers, target.key)
                   && line == "volume kept: " + v.name)
            || (exists n :: n in snap.resources.networks && n.project == target.key
                   && line == "network kept: " + n.name)
  {
    assert line in p.retained <==> line in RetainedBag(snap, target, p.hostDirectory) by {
      assert line in p.retained <==> line in multiset(p.retained);
    }
    hide IsPlanFor, OutsideMount, MountedByProject;
    ContainerLinesAre(snap.resources.containers, target.key, p.hostDirectory, line);
    ForeignLinesAre(snap.resources.volumes, snap.resources.containers, target.key, line);
    NetworkLinesAre(snap.resources.networks, target.key, line);
    hide ContainerLines, ForeignVolumeLines, NetworkLines;
  }
}
