/** Exactly which files the display scan shows, and that none of them is excluded from projects. */
module DiscoveryReach {
  import opened Paths
  import opened Options
  import opened Walker
  import opened Discovery

  /** The tree has a leaf at these names, all directories on the way can be opened. */
  ghost predicate LeafAt(node: Node, rel: Path)
    decreases |rel|
  {
    if rel == [] then node.Leaf?
    else
      && node.Dir? && node.openFault.None?
      && exists k :: 0 <= k < |Children(node.listing)| && Children(node.listing)[k].name == rel[0]
           && LeafAt(Children(node.listing)[k], rel[1..])
  }

  function NameAt(node: Node, rel: Path, i: nat): string
    requires i <= |rel|
  {
    if i == 0 then node.name else rel[i - 1]
  }

  predicate Skipped(root: Path, path: Path, name: string) {
    (path != root && Ignored(name)) || Separators(path) - Separators(root) > MAX_DEPTH
  }

  /** No directory on the way is skipped. */
  ghost predicate OpenWay(root: Path, node: Node, path: Path, rel: Path) {
    forall i :: 0 <= i < |rel| ==> !Skipped(root, path + rel[..i], NameAt(node, rel, i))
  }

  ghost predicate Found(world: World, root: Path, node: Node, path: Path, rel: Path, r: Path) {
    && LeafAt(node, rel) && OpenWay(root, node, path, rel)
    && IsComposeFilename(NameAt(node, rel, |rel|))
    && world.resolve(path + rel) == Some(r) && world.project(r).Some?
  }

  ghost predicate FoundIn(world: World, root: Path, node: Node, path: Path, r: Path) {
    exists rel :: Found(world, root, node, path, rel, r)
  }

  ghost predicate FoundAmong(world: World, root: Path, entries: seq<Node>, path: Path, r: Path) {
    exists k :: 0 <= k < |entries| && FoundIn(world, root, entries[k], path + [entries[k].name], r)
  }

  lemma WayDown(root: Path, node: Node, child: Node, path: Path, rel: Path)
    requires rel != [] && rel[0] == child.name
    ensures OpenWay(root, node, path, rel) <==>
            !Skipped(root, path, node.name) && OpenWay(root, child, path + [child.name], rel[1..])
    ensures NameAt(node, rel, |rel|) == NameAt(child, rel[1..], |rel| - 1)
    ensures path + rel == path + [child.name] + rel[1..]
  {
    hide Skipped;
    assert path + rel[..0] == path;
    forall i | 0 <= i < |rel| - 1
      ensures path + rel[..i + 1] == path + [child.name] + rel[1..][..i]
      ensures NameAt(node, rel, i + 1) == NameAt(child, rel[1..], i)
    {
    }
    if OpenWay(root, node, path, rel) {
      assert !Skipped(root, path + rel[..0], NameAt(node, rel, 0));
      forall i | 0 <= i < |rel| - 1
        ensures !Skipped(root, path + [child.name] + rel[1..][..i], NameAt(child, rel[1..], i))
      {
        assert !Skipped(root, path + rel[..i + 1], NameAt(node, rel, i + 1));
      }
    }
    if !Skipped(root, path, node.name) && OpenWay(root, child, path + [child.name], rel[1..]) {
      forall i | 0 <= i < |rel| ensures !Skipped(root, path + rel[..i], NameAt(node, rel, i)) {
        if i > 0 { assert !Skipped(root, path + [child.name] + rel[1..][..i - 1], NameAt(child, rel[1..], i - 1)); }
      }
    }
  }

  /** What a directory contributes is what its entries contribute. */
  lemma FoundBelow(world: World, root: Path, node: Node, path: Path, r: Path)
    requires node.Dir?
    ensures FoundIn(world, root, node, path, r) <==>
            !Skipped(root, path, node.name) && node.openFault.None?
            && FoundAmong(world, root, Children(node.listing), path, r)
  {
    hide Skipped, OpenWay, IsComposeFilename, NameAt;
    var children := Children(node.listing);
    if FoundIn(world, root, node, path, r) {
      var rel :| Found(world, root, node, path, rel, r);
      var k :| 0 <= k < |children| && children[k].name == rel[0] && LeafAt(children[k], rel[1..]);
      FoundStep(world, root, node, path, k, rel[1..], r);
      assert rel == [children[k].name] + rel[1..];
    }
    if !Skipped(root, path, node.name) && node.openFault.None? && FoundAmong(world, root, children, path, r) {
      var k :| 0 <= k < |children| && FoundIn(world, root, children[k], path + [children[k].name], r);
      var rest :| Found(world, root, children[k], path + [children[k].name], rest, r);
      FoundStep(world, root, node, path, k, rest, r);
    }
  }

  lemma FoundStep(world: World, root: Path, node: Node, path: Path, k: nat, rest: Path, r: Path)
    requires node.Dir? && node.openFault.None? && k < |Children(node.listing)|
    requires LeafAt(Children(node.listing)[k], rest)
    ensures var child := Children(node.listing)[k];
            Found(world, root, node, path, [child.name] + rest, r) <==>
            !Skipped(root, path, node.name) && Found(world, root, child, path + [child.name], rest, r)
  {
    var child := Children(node.listing)[k];
    var rel := [child.name] + rest;
    assert rel[1..] == rest && rel[0] == child.name;
    WayDown(root, node, child, path, rel);
    assert LeafAt(node, rel);
  }

  lemma FoundLeaf(world: World, root: Path, node: Node, path: Path, r: Path)
    requires node.Leaf?
    ensures FoundIn(world, root, node, path, r) <==>
            IsComposeFilename(node.name) && world.resolve(path) == Some(r) && world.project(r).Some?
  {
    assert path + [] == path;
    if IsComposeFilename(node.name) && world.resolve(path) == Some(r) && world.project(r).Some? {
      assert Found(world, root, node, path, [], r);
    }
  }

  /** A walk that does not abort is the walk over all entries of the directory. */
  lemma {:induction false} ListingIsChildren(world: World, root: Path, listing: Listing, path: Path, seen: Seen)
    requires WalkListing(listing, path, seen, ScanVisitor(world, root)).1 == Continue
    ensures WalkEntries(Children(listing), path, seen, ScanVisitor(world, root)) ==
            WalkListing(listing, path, seen, ScanVisitor(world, root))
  {
    if listing.Batch? {
      var visit := ScanVisitor(world, root);
      EntriesConcat(listing.entries, Children(listing.rest), path, seen, visit);
      ListingIsChildren(world, root, listing.rest, path, WalkEntries(listing.entries, path, seen, visit).0);
    }
  }

  lemma {:induction false} ScanFindsNode(world: World, root: Path, node: Node, path: Path, seen: Seen, r: Path)
    requires WalkNode(node, path, seen, ScanVisitor(world, root)).1 == Continue
    ensures r in WalkNode(node, path, seen, ScanVisitor(world, root)).0 <==>
            r in seen || FoundIn(world, root, node, path, r)
    decreases node, 1
  {
    if node.Leaf? {
      FoundLeaf(world, root, node, path, r);
    } else {
      FoundBelow(world, root, node, path, r);
      if !Skipped(root, path, node.name) && node.openFault.None? {
        var children := Children(node.listing);
        ListingIsChildren(world, root, node.listing, path, seen);
        forall k | 0 <= k < |children| ensures children[k] < node { ChildrenSmaller(node.listing, k); }
        ScanFindsEntries(world, root, node, children, path, seen, r);
      }
    }
  }

  lemma {:induction false} ScanFindsEntries(world: World, root: Path, parent: Node, entries: seq<Node>, path: Path,
                                            seen: Seen, r: Path)
    requires forall k :: 0 <= k < |entries| ==> entries[k] < parent
    requires WalkEntries(entries, path, seen, ScanVisitor(world, root)).1 == Continue
    ensures r in WalkEntries(entries, path, seen, ScanVisitor(world, root)).0 <==>
            r in seen || FoundAmong(world, root, entries, path, r)
    decreases parent, 0, |entries|
  {
    if entries != [] {
      var child := path + [entries[0].name];
      var seen1 := WalkNode(entries[0], child, seen, ScanVisitor(world, root)).0;
      ScanFindsNode(world, root, entries[0], child, seen, r);
      ScanFindsEntries(world, root, parent, entries[1..], path, seen1, r);
      if FoundAmong(world, root, entries, path, r) && !FoundIn(world, root, entries[0], child, r) {
        var k :| 0 <= k < |entries| && FoundIn(world, root, entries[k], path + [entries[k].name], r);
        assert entries[1..][k - 1] == entries[k];
      }
      if FoundAmong(world, root, entries[1..], path, r) {
        var k :| 0 <= k < |entries| - 1 && FoundIn(world, root, entries[1..][k], path + [entries[1..][k].name], r);
        assert entries[k + 1] == entries[1..][k];
      }
    }
  }

  /** Six directories below the root, seven when the root is "/", whose text already is one separator. */
  function DepthLimit(root: Path): nat {
    if root == [] then 7 else 6
  }

  ghost predicate Shown(root: Path, rel: Path) {
    && |rel| - 1 <= DepthLimit(root)
    && forall i :: 0 <= i < |rel| - 1 ==> !Ignored(rel[i])
  }

  lemma OpenWayFromRoot(root: Path, node: Node, rel: Path)
    ensures OpenWay(root, node, root, rel) <==> Shown(root, rel)
  {
    forall i | 0 <= i < |rel|
      ensures Separators(root + rel[..i]) - Separators(root) > MAX_DEPTH <==> i > DepthLimit(root)
      ensures root + rel[..i] == root <==> i == 0
    {
      assert |root + rel[..i]| == |root| + i;
    }
    if OpenWay(root, node, root, rel) {
      forall i | 0 <= i < |rel| - 1 ensures !Ignored(rel[i]) {
        assert !Skipped(root, root + rel[..i + 1], NameAt(node, rel, i + 1));
      }
      if rel != [] {
        assert !Skipped(root, root + rel[..|rel| - 1], NameAt(node, rel, |rel| - 1));
      }
    }
  }

  /** The files one root contributes to a scan that succeeds: exactly the openable Compose files with
      at most six directories between them and the root, none of them ignored, that resolve and
      parse. */
  lemma ScanFindsRoot(world: World, path: Path, node: Node, seen: Seen, r: Path)
    requires WalkRoot(Present(node), path, seen, ScanVisitor(world, path)).1 == Continue
    ensures r in WalkRoot(Present(node), path, seen, ScanVisitor(world, path)).0 <==>
            r in seen || exists rel ::
              && LeafAt(node, rel) && Shown(path, rel) && IsComposeFilename(NameAt(node, rel, |rel|))
              && world.resolve(path + rel) == Some(r) && world.project(r).Some?
  {
    ScanFindsNode(world, path, node, path, seen, r);
    if FoundIn(world, path, node, path, r) {
      var rel :| Found(world, path, node, path, rel, r);
      OpenWayFromRoot(path, node, rel);
    }
    forall rel | LeafAt(node, rel) && Shown(path, rel) && IsComposeFilename(NameAt(node, rel, |rel|))
                 && world.resolve(path + rel) == Some(r) && world.project(r).Some?
      ensures FoundIn(world, path, node, path, r)
    {
      OpenWayFromRoot(path, node, rel);
      assert Found(world, path, node, path, rel, r);
    }
  }

  // ----- all roots ---------------------------------------------------------------------------------

  /** Both visitors ask to skip directories only, so no skip request escapes from their walks. */
  lemma VisitorsSkipOnlyDirectories(world: World, root: Path)
    ensures SkipsOnlyDirectories(ScanVisitor(world, root))
    ensures SkipsOnlyDirectories(InventoryVisitor(world, root))
  {
  }

  ghost predicate NeverAborts<S(!new)>(visit: (S, Visit) -> (S, Verdict), fault: Fault) {
    forall s, v {:trigger visit(s, v)} :: visit(s, v).1 != Abort(fault)
  }

  /** A walk fails only with a fault its visitor reported. */
  lemma {:induction false} WalkAbortsLikeVisitor<S(!new)>(node: Node, path: Path, s: S,
                                                          visit: (S, Visit) -> (S, Verdict), fault: Fault)
    requires NeverAborts(visit, fault)
    ensures WalkNode(node, path, s, visit).1 != Abort(fault)
    decreases node, 1
  {
    var (s1, verdict) := visit(s, Enter(path, node.name, node.Dir?));
    if node.Dir? && verdict == Continue && node.openFault.None? {
      ListingAbortsLikeVisitor(node.listing, path, s1, visit, fault);
    }
  }

  lemma {:induction false} ListingAbortsLikeVisitor<S(!new)>(listing: Listing, path: Path, s: S,
                                                             visit: (S, Visit) -> (S, Verdict), fault: Fault)
    requires NeverAborts(visit, fault)
    ensures WalkListing(listing, path, s, visit).1 != Abort(fault)
    decreases listing, 0
  {
    if listing.Batch? {
      EntriesAbortLikeVisitor(listing.entries, path, s, visit, fault);
      ListingAbortsLikeVisitor(listing.rest, path, WalkEntries(listing.entries, path, s, visit).0, visit, fault);
    }
  }

  lemma {:induction false} EntriesAbortLikeVisitor<S(!new)>(entries: seq<Node>, path: Path, s: S,
                                                            visit: (S, Visit) -> (S, Verdict), fault: Fault)
    requires NeverAborts(visit, fault)
    ensures WalkEntries(entries, path, s, visit).1 != Abort(fault)
    decreases entries, 0
  {
    if entries != [] {
      var child := path + [entries[0].name];
      WalkAbortsLikeVisitor(entries[0], child, s, visit, fault);
      EntriesAbortLikeVisitor(entries[1..], path, WalkNode(entries[0], child, s, visit).0, visit, fault);
    }
  }

  /** The scan of a root runs to its end or fails with neither a missing file nor a refused one. */
  lemma ScanOfRootEnds(world: World, path: Path, root: Root, seen: Seen)
    ensures var verdict := WalkRoot(root, path, seen, ScanVisitor(world, path)).1;
            verdict == Continue || verdict == Abort(OtherFault)
  {
    var visit := ScanVisitor(world, path);
    if root.Present? {
      VisitorsSkipOnlyDirectories(world, path);
      SkipNeverEscapes(root.node, path, seen, visit);
      WalkAbortsLikeVisitor(root.node, path, seen, visit, NotExist);
      WalkAbortsLikeVisitor(root.node, path, seen, visit, Permission);
      var verdict := WalkRoot(root, path, seen, visit).1;
      assert verdict == WalkNode(root.node, path, seen, visit).1;
      assert verdict.Abort? ==> verdict.fault == OtherFault;
    }
  }

  /** The root holds a Compose file at these names which the scan shows as `r`. */
  ghost predicate ShownUnder(world: World, root: (Path, Root), rel: Path, r: Path) {
    && root.1.Present? && LeafAt(root.1.node, rel) && Shown(root.0, rel)
    && IsComposeFilename(NameAt(root.1.node, rel, |rel|))
    && world.resolve(root.0 + rel) == Some(r) && world.project(r).Some?
  }

  lemma ScanOfRootFinds(world: World, path: Path, root: Root, seen: Seen, r: Path)
    requires WalkRoot(root, path, seen, ScanVisitor(world, path)).1 == Continue
    ensures r in WalkRoot(root, path, seen, ScanVisitor(world, path)).0 <==>
            r in seen || exists rel :: ShownUnder(world, (path, root), rel, r)
  {
    if root.Present? {
      ScanFindsRoot(world, path, root.node, seen, r);
      if exists rel :: ShownUnder(world, (path, root), rel, r) {
        var rel :| ShownUnder(world, (path, root), rel, r);
      }
      forall rel | LeafAt(root.node, rel) && Shown(path, rel) && IsComposeFilename(NameAt(root.node, rel, |rel|))
                   && world.resolve(path + rel) == Some(r) && world.project(r).Some?
        ensures ShownUnder(world, (path, root), rel, r)
      {
      }
    }
  }

  /** Exactly which files a successful scan of all roots shows: every openable Compose file that
      resolves and parses, at most six directories deep with none of them ignored, below any root. */
  lemma {:induction false} ScanFinds(world: World, roots: seq<(Path, Root)>, seen: Seen, r: Path)
    requires ScanFrom(world, roots, seen).Some?
    ensures r in ScanFrom(world, roots, seen).value <==>
            r in seen || exists k, rel :: 0 <= k < |roots| && ShownUnder(world, roots[k], rel, r)
  {
    hide ShownUnder, WalkRoot;
    if roots != [] {
      var (path, root) := roots[0];
      var seen1 := WalkRoot(root, path, seen, ScanVisitor(world, path)).0;
      ScanOfRootEnds(world, path, root, seen);
      ScanOfRootFinds(world, path, root, seen, r);
      ScanFinds(world, roots[1..], seen1, r);
      assert roots[0] == (path, root);
      if k, rel :| 0 <= k < |roots| && ShownUnder(world, roots[k], rel, r) {
        if k > 0 {
          assert ShownUnder(world, roots[1..][k - 1], rel, r);
        } else {
          assert ShownUnder(world, (path, root), rel, r);
        }
      }
      if k, rel :| 0 <= k < |roots| - 1 && ShownUnder(world, roots[1..][k], rel, r) {
        assert ShownUnder(world, roots[k + 1], rel, r);
      }
    }
  }

  // ----- what is shown of a file -------------------------------------------------------------------

  ghost predicate AsDecoded(world: World, seen: Seen) {
    forall r :: r in seen ==> world.project(r) == Some(seen[r])
  }

  /** Every file is shown as it was decoded. */
  lemma {:induction false} ScanShowsDecoded(world: World, roots: seq<(Path, Root)>, seen: Seen)
    requires AsDecoded(world, seen) && ScanFrom(world, roots, seen).Some?
    ensures forall r :: r in ScanFrom(world, roots, seen).value ==>
              world.project(r) == Some(ScanFrom(world, roots, seen).value[r])
  {
    if roots != [] {
      var (path, root) := roots[0];
      var visit, good := ScanVisitor(world, path), (seen: Seen) => AsDecoded(world, seen);
      assert Keeps(visit, good);
      if root.Present? {
        WalkKeeps(root.node, path, seen, visit, good);
      }
      assert good(WalkRoot(root, path, seen, visit).0);
      ScanShowsDecoded(world, roots[1..], WalkRoot(root, path, seen, visit).0);
    }
  }

  // ----- exclusion -----------------------------------------------------------------------------------

  /** `ExcludedFromProjects`: every root that contains the path has an ignored directory in between. */
  predicate ExcludedFromProjects(roots: seq<Path>, path: Path) {
    forall i | 0 <= i < |roots| && PathContains(roots[i], path) :: IgnoredBetween(roots[i], path)
  }

  predicate IgnoredBetween(root: Path, path: Path) {
    var parts := Rel(Clean(root), Clean(path));
    exists i | 0 <= i < |parts| - 1 :: Ignored(parts[i])
  }

  /** A path is excluded exactly if under every root that contains it some directory between the root and
      the file is one the display leaves out. */
  lemma ExcludedMeans(roots: seq<Path>, path: Path)
    ensures ExcludedFromProjects(roots, path) <==>
            forall root :: root in roots && Clean(root) <= Clean(path) ==>
              exists i :: |Clean(root)| <= i < |Clean(path)| - 1 && Ignored(Clean(path)[i])
  {
    hide Ignored, Clean, PathContains;
    forall root | root in roots
      ensures PathContains(root, path) <==> Clean(root) <= Clean(path)
      ensures Clean(root) <= Clean(path) ==>
                (IgnoredBetween(root, path) <==>
                 exists i :: |Clean(root)| <= i < |Clean(path)| - 1 && Ignored(Clean(path)[i]))
    {
      ContainsIsPrefix(root, path);
      if Clean(root) <= Clean(path) { BetweenMeans(root, path); }
    }
    hide IgnoredBetween;
    if ExcludedFromProjects(roots, path) {
      forall root | root in roots && Clean(root) <= Clean(path) ensures IgnoredBetween(root, path) {
        var i :| 0 <= i < |roots| && roots[i] == root;
      }
    } else {
      var i :| 0 <= i < |roots| && PathContains(roots[i], path) && !IgnoredBetween(roots[i], path);
      assert roots[i] in roots;
    }
  }

  lemma BetweenMeans(root: Path, path: Path)
    requires Clean(root) <= Clean(path)
    ensures IgnoredBetween(root, path) <==>
            exists i :: |Clean(root)| <= i < |Clean(path)| - 1 && Ignored(Clean(path)[i])
  {
    hide Ignored, Clean, Rel;
    var n, parts := |Clean(root)|, Clean(path);
    RelBelow(Clean(root), parts);
    var rest := parts[n..];
    assert Rel(Clean(root), parts) == rest && |rest| == |parts| - n;
    if i :| 0 <= i < |rest| - 1 && Ignored(rest[i]) {
      assert parts[n + i] == rest[i];
    }
    if i :| n <= i < |parts| - 1 && Ignored(parts[i]) {
      assert rest[i - n] == parts[i];
    }
  }

  /** A file the scan shows under a root may also be a deletion target. */
  lemma ShownIsNotExcluded(roots: seq<Path>, k: nat, rel: Path)
    requires k < |roots| && IsClean(roots[k]) && IsClean(rel) && Shown(roots[k], rel)
    ensures !ExcludedFromProjects(roots, roots[k] + rel)
  {
    var root := roots[k];
    CleanFixes(root);
    CleanFixes(root + rel);
    CleanContains(root, root + rel);
    RelBelow(root, root + rel);
    assert (root + rel)[|root|..] == rel;
    assert PathContains(roots[k], root + rel) && !IgnoredBetween(roots[k], root + rel);
  }

  predicate CleanName(name: string) {
    name != "" && name != "." && name != ".."
  }

  /** No directory lists an entry named like nothing, itself or its parent. */
  ghost predicate CleanNames(node: Node)
    decreases node, 1
  {
    node.Leaf? || CleanListing(node.listing)
  }

  ghost predicate CleanListing(listing: Listing)
    decreases listing, 0
  {
    listing.End?
      || ((forall e | e in listing.entries :: CleanName(e.name) && CleanNames(e)) && CleanListing(listing.rest))
  }

  lemma {:induction false} CleanChildren(listing: Listing, k: nat)
    requires CleanListing(listing) && k < |Children(listing)|
    ensures CleanName(Children(listing)[k].name) && CleanNames(Children(listing)[k])
  {
    if k < |listing.entries| {
      assert Children(listing)[k] in listing.entries;
    } else {
      CleanChildren(listing.rest, k - |listing.entries|);
    }
  }

  lemma {:induction false} LeafHasCleanPath(node: Node, rel: Path)
    requires CleanNames(node) && LeafAt(node, rel)
    ensures IsClean(rel)
    decreases |rel|
  {
    if rel != [] {
      var children := Children(node.listing);
      var k :| 0 <= k < |children| && children[k].name == rel[0] && LeafAt(children[k], rel[1..]);
      CleanChildren(node.listing, k);
      LeafHasCleanPath(children[k], rel[1..]);
      assert rel == [rel[0]] + rel[1..];
    }
  }

  /** No link leads away: a path the guard accepts is its own resolution. */
  ghost predicate LinkFree(world: World) {
    forall p :: world.resolve(p) == None || world.resolve(p) == Some(p)
  }

  function RootPaths(roots: seq<(Path, Root)>): (paths: seq<Path>)
    ensures |paths| == |roots| && forall i :: 0 <= i < |paths| ==> paths[i] == roots[i].0
  {
    seq(|roots|, i requires 0 <= i < |roots| => roots[i].0)
  }

  /** Whatever the scan of all roots shows may also be a deletion target: nothing it shows is excluded. */
  lemma ScannedIsNotExcluded(world: World, roots: seq<(Path, Root)>, r: Path)
    requires LinkFree(world) && ScanFrom(world, roots, map[]).Some?
    requires forall k :: 0 <= k < |roots| ==>
                 IsClean(roots[k].0) && (roots[k].1.Present? ==> CleanNames(roots[k].1.node))
    requires r in ScanFrom(world, roots, map[]).value
    ensures !ExcludedFromProjects(RootPaths(roots), r)
  {
    hide ExcludedFromProjects, ScanFrom;
    ScanFinds(world, roots, map[], r);
    var k, rel :| 0 <= k < |roots| && ShownUnder(world, roots[k], rel, r);
    LeafHasCleanPath(roots[k].1.node, rel);
    ShownIsNotExcluded(RootPaths(roots), k, rel);
  }
}
