/** The manager runs in a container: paths it sees are translated to host paths through its own
    bind mounts before they are compared with the mounts of other containers. */
module RemovalPaths {
  import opened Paths
  import opened Docker
  import opened Strings
  import opened Sorting

  /** The bind mounts of the manager's container, longest destination first. */
  datatype Mapper = Mapper(mounts: seq<Mount>, project: string)

  function LongerFirst(): (Mount, Mount) -> bool {
    (a: Mount, b: Mount) => |Render(a.destination)| >= |Render(b.destination)|
  }

  predicate IsSelf(c: Container, hostname: string) {
    |hostname| >= 12 && HasPrefix(c.id, hostname)
  }

  function BindMounts(mounts: seq<Mount>): (r: seq<Mount>)
    ensures forall m :: multiset(r)[m] == if m.kind == "bind" then multiset(mounts)[m] else 0
  {
    if mounts == [] then []
    else
      var rest := BindMounts(mounts[..|mounts| - 1]);
      var last := mounts[|mounts| - 1];
      assert mounts == mounts[..|mounts| - 1] + [last];
      if last.kind == "bind" then rest + [last] else rest
  }

  /** The first container whose identifier starts with the host name is the manager itself. */
  function MapperOf(containers: seq<Container>, hostname: string): Mapper {
    if containers == [] then Mapper([], "")
    else if IsSelf(containers[0], hostname) then
      Mapper(Sorted(BindMounts(containers[0].mounts), LongerFirst()), containers[0].project)
    else MapperOf(containers[1..], hostname)
  }

  method NewRemovalPathMapper(containers: seq<Container>, hostname: string) returns (mapper: Mapper)
    ensures mapper == MapperOf(containers, hostname)
  {
    var mounts: seq<Mount>, project := [], "";
    var i := 0;
    while i < |containers|
      invariant 0 <= i <= |containers|
      invariant mounts == [] && project == ""
      invariant MapperOf(containers, hostname) == MapperOf(containers[i..], hostname)
    {
      var c := containers[i];
      assert containers[i..][0] == c && containers[i..][1..] == containers[i + 1..];
      if !IsSelf(c, hostname) {
        i := i + 1;
        continue;
      }
      project := c.project;
      for n := 0 to |c.mounts|
        invariant mounts == BindMounts(c.mounts[..n])
      {
        assert c.mounts[..n + 1][..n] == c.mounts[..n];
        if c.mounts[n].kind == "bind" {
          mounts := mounts + [c.mounts[n]];
        }
      }
      assert c.mounts[..|c.mounts|] == c.mounts;
      break;
    }
    mounts := SortBy(mounts, LongerFirst());
    mapper := Mapper(mounts, project);
  }

  /** The first mount, in the mapper's order, whose destination contains the path. */
  function Host(mounts: seq<Mount>, path: Path): Path {
    var path := Clean(path);
    if mounts == [] then path
    else if PathContains(mounts[0].destination, path) then
      Clean(mounts[0].source + Rel(Clean(mounts[0].destination), path))
    else Host(mounts[1..], path)
  }

  predicate ScanRootMount(mounts: seq<Mount>, source: Path, roots: seq<Path>) {
    exists root :: root in roots && Host(mounts, source) == Host(mounts, root)
  }

  // ----- which mount is used ----------------------------------------------------------

  /** Docker reports clean destinations and never two mounts on one destination. */
  ghost predicate WellFormedMounts(mounts: seq<Mount>) {
    && (forall m :: m in mounts ==> IsClean(m.destination))
    && (forall m, n :: m in mounts && n in mounts && m.destination == n.destination ==> m == n)
  }

  ghost predicate Covers(m: Mount, path: Path) {
    m.destination <= path
  }

  /** `m` is the mount that decides where `path` lives on the host. */
  ghost predicate Deepest(mounts: seq<Mount>, m: Mount, path: Path) {
    && m in mounts && Covers(m, path)
    && forall n :: n in mounts && Covers(n, path) ==> n.destination <= m.destination
  }

  /** Where a path below the mount's destination lives on the host. */
  ghost function Moved(m: Mount, path: Path): Path
    requires m.destination <= path
  {
    Clean(m.source) + path[|m.destination|..]
  }

  lemma MovedIsClean(m: Mount, path: Path)
    requires IsClean(path) && Covers(m, path)
    ensures IsClean(Moved(m, path))
    ensures Clean(m.source + path[|m.destination|..]) == Moved(m, path)
  {
    CleanIsClean(m.source);
    CleanPart(path, |m.destination|, |path|);
    CleanAppend(m.source, path[|m.destination|..]);
    CleanIsClean(m.source + path[|m.destination|..]);
  }

  lemma HostThrough(m: Mount, path: Path)
    requires IsClean(path) && IsClean(m.destination)
    ensures PathContains(m.destination, path) <==> Covers(m, path)
    ensures Covers(m, path) ==> Clean(m.source + Rel(Clean(m.destination), path)) == Moved(m, path)
  {
    hide PathContains, Rel, Clean, IsClean, Moved;
    CleanContains(m.destination, path);
    CleanFixes(m.destination);
    if Covers(m, path) {
      RelBelow(m.destination, path);
      MovedIsClean(m, path);
    }
  }

  /** Whatever order `sort.Slice` leaves equal lengths in, a path is mapped through the deepest
      mount that contains it, and a path no mount contains is its own host path. */
  lemma {:induction false} HostUsesDeepest(mounts: seq<Mount>, path: Path)
    requires SortedBy(mounts, LongerFirst()) && WellFormedMounts(mounts) && IsClean(path)
    ensures forall m :: Deepest(mounts, m, path) ==>
              Host(mounts, path) == Moved(m, path) == Clean(m.source) + path[|m.destination|..]
    ensures (forall m :: m in mounts ==> !Covers(m, path)) ==> Host(mounts, path) == path
    ensures (exists m :: m in mounts && Covers(m, path)) ==> exists m :: Deepest(mounts, m, path)
  {
    assert forall m | Deepest(mounts, m, path) :: Moved(m, path) == Clean(m.source) + path[|m.destination|..];
    hide PathContains, Rel, Clean, Moved, IsClean, Deepest, Covers;
    CleanFixes(path);
    if mounts == [] {
      NothingDecides(path);
    } else {
      var first := mounts[0];
      HostThrough(first, path);
      if Covers(first, path) {
        FirstIsDeepest(mounts, path);
        assert Deepest(mounts, first, path);
      } else {
        HostUsesDeepest(mounts[1..], path);
        RestDecides(mounts, path);
        if exists m :: m in mounts && Covers(m, path) {
          var d :| Deepest(mounts[1..], d, path);
          assert Deepest(mounts, d, path);
        }
      }
    }
  }

  lemma NothingDecides(path: Path)
    ensures forall m :: !Deepest([], m, path)
  {
  }

  lemma RestDecides(mounts: seq<Mount>, path: Path)
    requires mounts != [] && !Covers(mounts[0], path)
    ensures forall m :: Deepest(mounts, m, path) <==> Deepest(mounts[1..], m, path)
    ensures forall m :: m in mounts && Covers(m, path) <==> m in mounts[1..] && Covers(m, path)
  {
    assert mounts == [mounts[0]] + mounts[1..];
    hide Covers;
  }

  lemma FirstIsDeepest(mounts: seq<Mount>, path: Path)
    requires mounts != [] && SortedBy(mounts, LongerFirst()) && WellFormedMounts(mounts)
    requires Covers(mounts[0], path)
    ensures forall m :: Deepest(mounts, m, path) <==> m == mounts[0]
  {
    var first := mounts[0];
    forall n | n in mounts && Covers(n, path) ensures n.destination <= first.destination {
      FirstCoversMost(mounts, n, path);
    }
    assert Deepest(mounts, first, path);
    forall m | Deepest(mounts, m, path) ensures m == first {
      assert m.destination <= first.destination && first.destination <= m.destination;
    }
  }

  lemma FirstCoversMost(mounts: seq<Mount>, n: Mount, path: Path)
    requires SortedBy(mounts, LongerFirst()) && WellFormedMounts(mounts)
    requires n in mounts && Covers(n, path) && Covers(mounts[0], path)
    ensures n.destination <= mounts[0].destination
  {
    var first := mounts[0];
    var k :| 0 <= k < |mounts| && mounts[k] == n;
    FirstIsLeast(mounts, LongerFirst(), k);
    if !(n.destination <= first.destination) {
      assert first.destination == path[..|first.destination|] && n.destination == path[..|n.destination|];
      assert first.destination <= n.destination;
      DeeperIsLonger(first.destination, n.destination);
    }
  }

  lemma {:induction false} HostCleans(mounts: seq<Mount>, path: Path)
    ensures IsClean(Clean(path)) && Host(mounts, path) == Host(mounts, Clean(path))
  {
    CleanIsClean(path);
    CleanFixes(Clean(path));
    if mounts != [] { HostCleans(mounts[1..], path); }
  }

  /** Two mappers over the same mounts agree on every path. */
  lemma HostIgnoresMountOrder(a: seq<Mount>, b: seq<Mount>, path: Path)
    requires SortedBy(a, LongerFirst()) && SortedBy(b, LongerFirst())
    requires WellFormedMounts(a) && multiset(a) == multiset(b)
    ensures Host(a, path) == Host(b, path)
  {
    HostCleans(a, path);
    HostCleans(b, path);
    var path := Clean(path);
    assert forall m :: m in a <==> m in multiset(a);
    assert forall m :: m in b <==> m in multiset(b);
    HostUsesDeepest(a, path);
    HostUsesDeepest(b, path);
    if exists m :: m in a && Covers(m, path) {
      var m :| Deepest(a, m, path);
      assert Deepest(b, m, path);
    }
  }

  /** The mount that decides about the path, if there is one. */
  lemma Decider(mounts: seq<Mount>, path: Path) returns (m: Mount, covered: bool)
    requires SortedBy(mounts, LongerFirst()) && WellFormedMounts(mounts) && IsClean(path)
    ensures covered <==> exists n :: n in mounts && Covers(n, path)
    ensures covered ==> Deepest(mounts, m, path) && Host(mounts, path) == Moved(m, path)
    ensures !covered ==> Host(mounts, path) == path
    ensures IsClean(Host(mounts, path))
  {
    HostUsesDeepest(mounts, path);
    covered := exists n :: n in mounts && Covers(n, path);
    if covered {
      m :| Deepest(mounts, m, path);
      MovedIsClean(m, path);
    } else {
      m := Mount("", [], [], "");
    }
  }

  // ----- when containment survives the translation ----------------------------------------

  /** The mount point lies strictly inside the directory. */
  ghost predicate Inside(m: Mount, dir: Path) {
    dir <= m.destination && m.destination != dir
  }

  /** A path in the directory that no mount inside the directory takes elsewhere. */
  lemma StaysInside(mounts: seq<Mount>, dir: Path, path: Path)
    requires SortedBy(mounts, LongerFirst()) && WellFormedMounts(mounts)
    requires IsClean(dir) && IsClean(path) && dir <= path
    requires forall m :: Deepest(mounts, m, path) ==> !Inside(m, dir)
    ensures Host(mounts, dir) <= Host(mounts, path)
  {
    hide Host, Moved;
    var n, covered := Decider(mounts, path);
    var m, covered' := Decider(mounts, dir);
    if covered {
      PrefixesNest(n.destination, dir, path);
      assert Covers(n, dir);
      assert n == m by { SameDecider(mounts, m, n, dir, path); }
      MovedGrows(m, dir, path);
    } else {
      assert forall x :: x in mounts && Covers(x, dir) ==> Covers(x, path);
    }
  }

  lemma MovedGrows(m: Mount, dir: Path, path: Path)
    requires m.destination <= dir <= path
    ensures Moved(m, dir) <= Moved(m, path)
  {
    PrefixTail(dir, path, |m.destination|);
  }

  lemma SameDecider(mounts: seq<Mount>, m: Mount, n: Mount, dir: Path, path: Path)
    requires WellFormedMounts(mounts) && dir <= path
    requires Deepest(mounts, m, dir) && Deepest(mounts, n, path) && Covers(n, dir)
    ensures m == n
  {
    assert Covers(m, path);
    assert m.destination <= n.destination && n.destination <= m.destination;
  }

  /** The path that stands for a mount inside the directory: its own mount point. */
  lemma AtMountPoint(mounts: seq<Mount>, m: Mount)
    requires SortedBy(mounts, LongerFirst()) && WellFormedMounts(mounts) && m in mounts
    ensures Host(mounts, m.destination) == Clean(m.source)
  {
    assert Deepest(mounts, m, m.destination);
    HostUsesDeepest(mounts, m.destination);
    assert m.destination[|m.destination|..] == [];
  }

  /** A mount inside the directory leads back into the directory's place on the host. */
  ghost predicate LeadsBack(mounts: seq<Mount>, m: Mount, dir: Path) {
    Host(mounts, dir) <= Clean(m.source)
  }

  predicate ContainsOnHost(mounts: seq<Mount>, dir: Path, path: Path) {
    PathContains(Host(mounts, dir), Host(mounts, path))
  }

  /** Exactly when a directory contains on the host whatever it contains for the manager: every mount
      strictly inside it must lead back into its own place on the host. */
  lemma HostKeepsContainmentExactly(mounts: seq<Mount>, dir: Path)
    requires SortedBy(mounts, LongerFirst()) && WellFormedMounts(mounts) && IsClean(dir)
    ensures (forall path :: IsClean(path) && PathContains(dir, path) ==> ContainsOnHost(mounts, dir, path)) <==>
            (forall m :: m in mounts && Inside(m, dir) ==> LeadsBack(mounts, m, dir))
  {
    hide PathContains, Host;
    if forall path :: IsClean(path) && PathContains(dir, path) ==> ContainsOnHost(mounts, dir, path) {
      forall m | m in mounts && Inside(m, dir) ensures LeadsBack(mounts, m, dir) {
        CleanContains(dir, m.destination);
        AtMountPoint(mounts, m);
        HostContains(mounts, dir, m.destination);
      }
    }
    if forall m :: m in mounts && Inside(m, dir) ==> LeadsBack(mounts, m, dir) {
      forall path | IsClean(path) && PathContains(dir, path) ensures ContainsOnHost(mounts, dir, path) {
        CleanContains(dir, path);
        HostContains(mounts, dir, path);
        if m :| Deepest(mounts, m, path) && Inside(m, dir) {
          assert LeadsBack(mounts, m, dir);
          HostUsesDeepest(mounts, path);
        } else {
          StaysInside(mounts, dir, path);
        }
      }
    }
  }

  lemma HostContains(mounts: seq<Mount>, dir: Path, path: Path)
    requires SortedBy(mounts, LongerFirst()) && WellFormedMounts(mounts) && IsClean(dir) && IsClean(path)
    ensures PathContains(Host(mounts, dir), Host(mounts, path)) <==> Host(mounts, dir) <= Host(mounts, path)
  {
    hide PathContains, Host;
    var m, _ := Decider(mounts, dir);
    var n, _ := Decider(mounts, path);
    CleanContains(Host(mounts, dir), Host(mounts, path));
  }

  /** In particular containment survives when no mount point lies strictly inside the directory. */
  lemma HostKeepsContainment(mounts: seq<Mount>, dir: Path, path: Path)
    requires SortedBy(mounts, LongerFirst()) && WellFormedMounts(mounts)
    requires IsClean(dir) && IsClean(path) && PathContains(dir, path)
    requires forall m :: m in mounts ==> !Inside(m, dir)
    ensures PathContains(Host(mounts, dir), Host(mounts, path))
  {
    hide PathContains, Host;
    HostKeepsContainmentExactly(mounts, dir);
  }

  /** A single mount inside the directory whose source is not in the directory. */
  lemma OneMountLeaves(m: Mount, dir: Path)
    requires IsClean(dir) && IsClean(m.destination) && IsClean(m.source)
    requires Inside(m, dir) && !(dir <= m.source)
    ensures PathContains(dir, m.destination)
    ensures !PathContains(Host([m], dir), Host([m], m.destination))
  {
    hide PathContains, Rel, Host, Moved, IsClean, Clean;
    CleanContains(dir, m.destination);
    CleanFixes(m.source);
    AtMountPoint([m], m);
    HostContains([m], dir, m.destination);
    HostUsesDeepest([m], dir);
    assert !Covers(m, dir);
  }

  /** The guard is needed: the data of a project mounted from elsewhere is inside the project's directory
      for the manager, but not on the host. */
  lemma NestedMountLeavesDirectory()
    ensures var mounts := [Mount("bind", ["mnt", "x"], ["docker", "a", "data"], "")];
            && PathContains(["docker", "a"], ["docker", "a", "data"])
            && !PathContains(Host(mounts, ["docker", "a"]), Host(mounts, ["docker", "a", "data"]))
  {
    var m := Mount("bind", ["mnt", "x"], ["docker", "a", "data"], "");
    var dir := ["docker", "a"];
    hide PathContains, Host;
    assert m.destination[..2] == dir;
    assert m.source[0] != dir[0];
    OneMountLeaves(m, dir);
  }

  /** The container `n` is the manager's own: the first whose identifier begins with the host name, which
      is at least twelve characters long. */
  ghost predicate FirstSelf(containers: seq<Container>, hostname: string, n: nat) {
    && n < |containers| && |hostname| >= 12 && hostname <= containers[n].id
    && forall i :: 0 <= i < n ==> !(hostname <= containers[i].id)
  }

  /** The mapper holds every bind mount of the manager's container, as often as Docker lists it, and
      nothing else; without such a container it is empty. */
  lemma {:induction false} MapperHolds(containers: seq<Container>, hostname: string)
    ensures forall n: nat :: FirstSelf(containers, hostname, n) ==>
              && MapperOf(containers, hostname).project == containers[n].project
              && forall m :: multiset(MapperOf(containers, hostname).mounts)[m] ==
                             if m.kind == "bind" then multiset(containers[n].mounts)[m] else 0
    ensures (forall n: nat :: !FirstSelf(containers, hostname, n)) ==> MapperOf(containers, hostname) == Mapper([], "")
  {
    if containers != [] {
      if IsSelf(containers[0], hostname) {
        assert FirstSelf(containers, hostname, 0);
        SortedKeeps(BindMounts(containers[0].mounts), LongerFirst());
      } else {
        MapperHolds(containers[1..], hostname);
        forall n: nat
          ensures FirstSelf(containers, hostname, n) <==> n > 0 && FirstSelf(containers[1..], hostname, n - 1)
        {
          FirstSelfLater(containers, hostname, n);
        }
        assert forall n: nat :: FirstSelf(containers[1..], hostname, n) ==> FirstSelf(containers, hostname, n + 1);
      }
    }
  }

  lemma FirstSelfLater(containers: seq<Container>, hostname: string, n: nat)
    requires containers != [] && !IsSelf(containers[0], hostname)
    ensures FirstSelf(containers, hostname, n) <==> n > 0 && FirstSelf(containers[1..], hostname, n - 1)
  {
    assert forall i :: 0 < i < |containers| ==> containers[1..][i - 1] == containers[i];
    if n > 0 && FirstSelf(containers[1..], hostname, n - 1) {
      forall i | 0 <= i < n ensures !(hostname <= containers[i].id) {
        if i > 0 { assert !(hostname <= containers[1..][i - 1].id); }
      }
    }
  }

  /** The mapper the manager builds, in the terms of the facts above. */
  lemma {:induction false} MapperIsSorted(containers: seq<Container>, hostname: string)
    ensures SortedBy(MapperOf(containers, hostname).mounts, LongerFirst())
    ensures forall m :: m in MapperOf(containers, hostname).mounts ==>
              exists c :: c in containers && IsSelf(c, hostname) && m in c.mounts && m.kind == "bind"
  {
    if containers != [] {
      if IsSelf(containers[0], hostname) {
        var binds := BindMounts(containers[0].mounts);
        SortedKeeps(binds, LongerFirst());
        forall m | m in Sorted(binds, LongerFirst()) ensures m in containers[0].mounts && m.kind == "bind" {
          assert m in multiset(Sorted(binds, LongerFirst()));
          assert m in binds;
        }
        assert containers[0] in containers;
      } else {
        MapperIsSorted(containers[1..], hostname);
      }
    }
  }
}
