/** The display scan and the deletion inventory: two visitors of the same walk. */
module Discovery {
  import opened Paths
  import opened Options
  import opened Strings
  import opened Walker
  import opened Sorting

  datatype Project = Project(key: string, name: string, file: Path, workingDir: Path, images: seq<string>)

  /** What the inventory keeps of one Compose file; `uncertain` marks references it cannot decide. */
  datatype RemovalFile = RemovalFile(
    key: string, name: string, file: Path, workingDir: Path, images: seq<string>,
    sha: string, binds: seq<Path>, volumes: seq<string>, uncertain: bool)

  /** The references decoded from one Compose file. */
  datatype References = References(sha: string, binds: seq<Path>, volumes: seq<string>, uncertain: bool)

  /** The file system below the walk: link resolution (None when the guard refuses the path),
      and the two decoders, each of which may fail. */
  datatype World = World(
    resolve: Path -> Option<Path>,
    project: Path -> Option<Project>,
    references: Path -> Option<References>)

  const MAX_DEPTH := 6

  const MAX_REMOVAL_SCAN_ENTRIES := 500000

  predicate IsComposeFilename(name: string): (compose: bool)
    ensures compose <==>
            ToLower(name) in {"compose.yaml", "compose.yml", "docker-compose.yaml", "docker-compose.yml"}
  {
    var name := ToLower(name);
    name == "compose.yaml" || name == "compose.yml" || name == "docker-compose.yaml" || name == "docker-compose.yml"
  }

  /** `ignoredDiscoveryDir`. */
  predicate Ignored(name: string) {
    var name := ToLower(name);
    || HasPrefix(name, ".")
    || HasPrefix(name, "source-")
    || name == "node_modules" || name == "backups" || name == "vendor"
    || (HasPrefix(name, "_") && (Contains(name, "-backup-") || Contains(name, "-preswitch-")))
  }

  /** The directories the inventory leaves out, a narrower and case-sensitive list. */
  predicate InventorySkips(name: string): (skips: bool)
    ensures skips <==> (name != "" && name[0] == '.') || name in {"backups", "node_modules", "vendor"}
  {
    HasPrefix(name, ".") || name == "backups" || name == "node_modules" || name == "vendor"
  }

  /** The number of separators in the text of a clean absolute path. */
  function Separators(p: Path): nat {
    if p == [] then 1 else |p|
  }

  // ----- the display scan ----------------------------------------------------------------------

  type Seen = map<Path, Project>

  function ScanVisitor(world: World, root: Path): (Seen, Visit) -> (Seen, Verdict) {
    (seen: Seen, v: Visit) => ScanVisit(world, root, seen, v)
  }

  function ScanVisit(world: World, root: Path, seen: Seen, v: Visit): (Seen, Verdict) {
    match v
    case Failed(_, fault) =>
      (seen, if fault == NotExist || fault == Permission then Continue else Abort(fault))
    case Enter(path, name, true) =>
      if path != root && Ignored(name) then (seen, SkipDir)
      else if Separators(path) - Separators(root) > MAX_DEPTH then (seen, SkipDir)
      else (seen, Continue)
    case Enter(path, name, false) =>
      if !IsComposeFilename(name) then (seen, Continue)
      else
        match world.resolve(path)
        case None => (seen, Continue)
        case Some(resolved) =>
          match world.project(resolved)
          case None => (seen, Continue)
          case Some(project) => (seen[resolved := project], Continue)
  }

  /** The scan of all roots; None when a walk fails with anything but a missing file. */
  function ScanFrom(world: World, roots: seq<(Path, Root)>, seen: Seen): Option<Seen> {
    if roots == [] then Some(seen)
    else
      var (path, root) := roots[0];
      var (seen, verdict) := WalkRoot(root, path, seen, ScanVisitor(world, path));
      if verdict != Continue && verdict != Abort(NotExist) then None
      else ScanFrom(world, roots[1..], seen)
  }

  // ----- the deletion inventory ------------------------------------------------------------------

  datatype Inventory = Inventory(files: seq<RemovalFile>, seen: set<Path>, count: nat)

  function Marker(path: Path): RemovalFile {
    RemovalFile("", "unreadable directory", path, [], [], "", [], [], true)
  }

  function MakeFile(path: Path, p: Project, r: References): RemovalFile {
    RemovalFile(p.key, p.name, path, path[..if path == [] then 0 else |path| - 1], p.images, r.sha, r.binds, r.volumes,
                r.uncertain)
  }

  function InventoryVisitor(world: World, root: Path): (Inventory, Visit) -> (Inventory, Verdict) {
    (inv: Inventory, v: Visit) => InventoryVisit(world, root, inv, v)
  }

  function InventoryVisit(world: World, root: Path, inv: Inventory, v: Visit): (Inventory, Verdict) {
    match v
    case Failed(path, Permission) => (inv.(files := inv.files + [Marker(path)]), Continue)
    case Failed(_, fault) => (inv, Abort(fault))
    case Enter(path, name, isDir) =>
      var inv := inv.(count := inv.count + 1);
      if inv.count > MAX_REMOVAL_SCAN_ENTRIES then (inv, Abort(OtherFault))
      else if isDir then (inv, if path != root && InventorySkips(name) then SkipDir else Continue)
      else if !IsComposeFilename(name) then (inv, Continue)
      else if world.resolve(path).None? then (inv, Abort(OtherFault))
      else
        var resolved := world.resolve(path).value;
        if resolved in inv.seen then (inv, Continue)
        else
          var inv := inv.(seen := inv.seen + {resolved});
          if world.project(resolved).None? || world.references(resolved).None? then (inv, Abort(OtherFault))
          else
            var file := MakeFile(resolved, world.project(resolved).value, world.references(resolved).value);
            (inv.(files := inv.files + [file]), Continue)
  }

  function InventoryFrom(world: World, roots: seq<(Path, Root)>, inv: Inventory): Option<Inventory> {
    if roots == [] then Some(inv)
    else
      var (path, root) := roots[0];
      var (inv, verdict) := WalkRoot(root, path, inv, InventoryVisitor(world, path));
      if verdict != Continue then None else InventoryFrom(world, roots[1..], inv)
  }

  // ----- both as the source runs them --------------------------------------------------------------

  method WalkDiscovery<S>(path: Path, root: Root, s0: S, visit: (S, Visit) -> (S, Verdict))
    returns (s: S, verdict: Verdict)
    ensures (s, verdict) == WalkRoot(root, path, s0, visit)
  {
    if root.Missing? {
      var step := visit(s0, Failed(path, root.fault));
      return step.0, step.1;
    }
    s, verdict := WalkDiscoveryEntry(path, root.node, s0, visit);
  }

  /** Name first, then path: the order in which projects are listed. */
  function ListOrder(): ((Path, Project), (Path, Project)) -> bool {
    (a: (Path, Project), b: (Path, Project)) =>
      if a.1.name == b.1.name then StrLeq(Render(a.0), Render(b.0)) else StrLeq(a.1.name, b.1.name)
  }

  lemma ListOrderTotal()
    ensures Total(ListOrder())
  {
    forall a: (Path, Project), b: (Path, Project) ensures ListOrder()(a, b) || ListOrder()(b, a) {
      StrLeqTotal(Render(a.0), Render(b.0));
      StrLeqTotal(a.1.name, b.1.name);
    }
  }

  /** Every found file is listed once, in list order. */
  method Scan(world: World, roots: seq<(Path, Root)>) returns (result: Option<seq<(Path, Project)>>)
    ensures result.Some? <==> ScanFrom(world, roots, map[]).Some?
    ensures result.Some? ==>
      var seen := ScanFrom(world, roots, map[]).value;
      && |result.value| == |seen|
      && (forall i :: 0 < i < |result.value| ==>
            var (a, b) := (result.value[i - 1], result.value[i]);
            StrLess(a.1.name, b.1.name) || (a.1.name == b.1.name && StrLeq(Render(a.0), Render(b.0))))
      && multiset(result.value) == multiset(set p | p in seen :: (p, seen[p]))
  {
    var seen: Seen := map[];
    for i := 0 to |roots|
      invariant ScanFrom(world, roots, map[]) == ScanFrom(world, roots[i..], seen)
    {
      var (path, root) := roots[i];
      assert roots[i..][0] == roots[i] && roots[i..][1..] == roots[i + 1..];
      var verdict;
      seen, verdict := WalkDiscovery(path, root, seen, ScanVisitor(world, path));
      if verdict != Continue && verdict != Abort(NotExist) {
        return None;
      }
    }
    var list := [];
    var rest := seen.Keys;
    while rest != {}
      invariant rest <= seen.Keys
      invariant multiset(list) == multiset(set p | p in seen.Keys - rest :: (p, seen[p]))
      invariant |list| == |seen| - |rest|
      decreases |rest|
    {
      var p :| p in rest;
      ListedOneMore(seen, rest, p);
      list := list + [(p, seen[p])];
      rest := rest - {p};
    }
    assert seen.Keys - {} == seen.Keys;
    ListOrderTotal();
    list := SortBy(list, ListOrder());
    assert |list| == |multiset(list)|;
    result := Some(list);
  }

  lemma ListedOneMore(seen: Seen, rest: set<Path>, p: Path)
    requires rest <= seen.Keys && p in rest
    ensures multiset(set q | q in seen.Keys - (rest - {p}) :: (q, seen[q])) ==
            multiset(set q | q in seen.Keys - rest :: (q, seen[q])) + multiset{(p, seen[p])}
  {
    var before := set q | q in seen.Keys - rest :: (q, seen[q]);
    assert (p, seen[p]) !in before;
    assert (set q | q in seen.Keys - (rest - {p}) :: (q, seen[q])) == before + {(p, seen[p])};
  }

  method RemovalInventory(world: World, roots: seq<(Path, Root)>) returns (result: Option<seq<RemovalFile>>)
    ensures result.Some? <==> InventoryFrom(world, roots, Inventory([], {}, 0)).Some?
    ensures result.Some? ==> result.value == InventoryFrom(world, roots, Inventory([], {}, 0)).value.files
  {
    var inv := Inventory([], {}, 0);
    for i := 0 to |roots|
      invariant InventoryFrom(world, roots, Inventory([], {}, 0)) == InventoryFrom(world, roots[i..], inv)
    {
      var (path, root) := roots[i];
      assert roots[i..][0] == roots[i] && roots[i..][1..] == roots[i + 1..];
      var verdict;
      inv, verdict := WalkDiscovery(path, root, inv, InventoryVisitor(world, path));
      if verdict != Continue {
        return None;
      }
    }
    result := Some(inv.files);
  }

  /** The directories the display leaves out. */
  lemma IgnoredMeans(name: string)
    ensures Ignored(name) <==>
            var n := ToLower(name);
            || (n != "" && n[0] == '.') || "source-" <= n || n in {"node_modules", "backups", "vendor"}
            || (n != "" && n[0] == '_'
                && exists head: string, tail: string ::
                     n == head + "-backup-" + tail || n == head + "-preswitch-" + tail)
  {
    var n := ToLower(name);
    ContainsMeans(n, "-backup-");
    ContainsMeans(n, "-preswitch-");
  }

  // ----- the inventory never sees less than the display -------------------------------------------

  lemma SkippedMeansIgnored(name: string)
    requires InventorySkips(name)
    ensures Ignored(name)
  {
    if HasPrefix(name, ".") {
      assert ToLower(name)[..1] == ".";
    } else {
      var a, b, c := "backups", "node_modules", "vendor";
      assert ToLower(a) == a && ToLower(b) == b && ToLower(c) == c;
    }
  }

  /** Every resolved path the inventory remembers is the path of a file it keeps. */
  ghost predicate Kept(inv: Inventory) {
    forall p :: p in inv.seen ==> exists i :: 0 <= i < |inv.files| && inv.files[i].file == p
  }

  ghost predicate Grows(a: Inventory, b: Inventory) {
    a.seen <= b.seen && Kept(b)
  }

  lemma InventoryVisitGrows(world: World, root: Path, inv: Inventory, v: Visit)
    requires Kept(inv)
    ensures var (inv', verdict) := InventoryVisitor(world, root)(inv, v); !verdict.Abort? ==> Grows(inv, inv')
  {
    var inv' := InventoryVisit(world, root, inv, v).0;
    if !InventoryVisit(world, root, inv, v).1.Abort? {
      forall p | p in inv'.seen ensures exists i :: 0 <= i < |inv'.files| && inv'.files[i].file == p {
        if p in inv.seen {
          var i :| 0 <= i < |inv.files| && inv.files[i].file == p;
          assert inv'.files[i].file == p;
        } else {
          assert inv'.files[|inv.files|].file == p;
        }
      }
    }
  }

  lemma {:induction false} InventoryGrows(world: World, root: Path, node: Node, path: Path, inv: Inventory)
    requires Kept(inv)
    ensures var (inv', verdict) := WalkNode(node, path, inv, InventoryVisitor(world, root));
            verdict == Continue ==> Grows(inv, inv')
    decreases node, 1
  {
    var visit := InventoryVisitor(world, root);
    var enter := Enter(path, node.name, node.Dir?);
    InventoryVisitGrows(world, root, inv, enter);
    var (inv1, verdict) := visit(inv, enter);
    if verdict == Continue && node.Dir? {
      if node.openFault.Some? {
        InventoryVisitGrows(world, root, inv1, Failed(path, node.openFault.value));
      } else {
        InventoryGrowsListing(world, root, node.listing, path, inv1);
      }
    }
  }

  lemma {:induction false} InventoryGrowsListing(world: World, root: Path, listing: Listing, path: Path, inv: Inventory)
    requires Kept(inv)
    ensures var (inv', verdict) := WalkListing(listing, path, inv, InventoryVisitor(world, root));
            verdict == Continue ==> Grows(inv, inv')
    decreases listing, 0
  {
    match listing
    case End(fault) =>
      if fault.Some? { InventoryVisitGrows(world, root, inv, Failed(path, fault.value)); }
    case Batch(entries, rest) =>
      InventoryGrowsEntries(world, root, entries, path, inv);
      var (inv1, verdict) := WalkEntries(entries, path, inv, InventoryVisitor(world, root));
      if verdict == Continue { InventoryGrowsListing(world, root, rest, path, inv1); }
  }

  lemma {:induction false} InventoryGrowsEntries(world: World, root: Path, entries: seq<Node>, path: Path,
                                                 inv: Inventory)
    requires Kept(inv)
    ensures var (inv', verdict) := WalkEntries(entries, path, inv, InventoryVisitor(world, root));
            verdict == Continue ==> Grows(inv, inv')
    decreases entries, 0
  {
    if entries != [] {
      var child := path + [entries[0].name];
      InventoryGrows(world, root, entries[0], child, inv);
      var (inv1, verdict) := WalkNode(entries[0], child, inv, InventoryVisitor(world, root));
      if verdict == Continue { InventoryGrowsEntries(world, root, entries[1..], path, inv1); }
    }
  }

  /** One visit: when the inventory carries on into an entry, so does the scan or it skips; what
      the scan adds, the inventory has; and the scan never fails where the inventory does not. */
  lemma VisitDominates(world: World, root: Path, inv: Inventory, seen: Seen, v: Visit)
    requires seen.Keys <= inv.seen
    ensures var (inv', verdict) := InventoryVisit(world, root, inv, v);
            var (seen', scan) := ScanVisit(world, root, seen, v);
            && (!verdict.Abort? ==> !scan.Abort? && seen'.Keys <= inv'.seen)
            && (verdict == SkipDir ==> scan == SkipDir)
            && (scan == SkipDir ==> v.Enter? && v.isDir && seen' == seen)
  {
    if v.Enter? && v.isDir && v.path != root && InventorySkips(v.name) { SkippedMeansIgnored(v.name); }
  }

  lemma {:induction false} NodeDominates(world: World, root: Path, node: Node, path: Path, inv: Inventory, seen: Seen)
    requires Kept(inv) && seen.Keys <= inv.seen
    requires WalkNode(node, path, inv, InventoryVisitor(world, root)).1 == Continue
    ensures var (seen', scan) := WalkNode(node, path, seen, ScanVisitor(world, root));
            scan == Continue && seen'.Keys <= WalkNode(node, path, inv, InventoryVisitor(world, root)).0.seen
    decreases node, 1
  {
    var enter := Enter(path, node.name, node.Dir?);
    VisitDominates(world, root, inv, seen, enter);
    InventoryVisitGrows(world, root, inv, enter);
    InventoryGrows(world, root, node, path, inv);
    var (inv1, verdict) := InventoryVisit(world, root, inv, enter);
    var (seen1, scan) := ScanVisit(world, root, seen, enter);
    if node.Dir? && verdict == Continue && scan == Continue {
      if node.openFault.Some? {
        VisitDominates(world, root, inv1, seen1, Failed(path, node.openFault.value));
      } else {
        ListingDominates(world, root, node.listing, path, inv1, seen1);
      }
    }
  }

  lemma {:induction false} ListingDominates(world: World, root: Path, listing: Listing, path: Path, inv: Inventory,
                                            seen: Seen)
    requires Kept(inv) && seen.Keys <= inv.seen
    requires WalkListing(listing, path, inv, InventoryVisitor(world, root)).1 == Continue
    ensures var (seen', scan) := WalkListing(listing, path, seen, ScanVisitor(world, root));
            scan == Continue && seen'.Keys <= WalkListing(listing, path, inv, InventoryVisitor(world, root)).0.seen
    decreases listing, 0
  {
    match listing
    case End(fault) =>
      if fault.Some? { VisitDominates(world, root, inv, seen, Failed(path, fault.value)); }
    case Batch(entries, rest) =>
      EntriesDominate(world, root, entries, path, inv, seen);
      InventoryGrowsEntries(world, root, entries, path, inv);
      ListingDominates(world, root, rest, path,
        WalkEntries(entries, path, inv, InventoryVisitor(world, root)).0,
        WalkEntries(entries, path, seen, ScanVisitor(world, root)).0);
  }

  lemma {:induction false} EntriesDominate(world: World, root: Path, entries: seq<Node>, path: Path, inv: Inventory,
                                           seen: Seen)
    requires Kept(inv) && seen.Keys <= inv.seen
    requires WalkEntries(entries, path, inv, InventoryVisitor(world, root)).1 == Continue
    ensures var (seen', scan) := WalkEntries(entries, path, seen, ScanVisitor(world, root));
            scan == Continue && seen'.Keys <= WalkEntries(entries, path, inv, InventoryVisitor(world, root)).0.seen
    decreases entries, 0
  {
    if entries != [] {
      var child := path + [entries[0].name];
      NodeDominates(world, root, entries[0], child, inv, seen);
      InventoryGrows(world, root, entries[0], child, inv);
      EntriesDominate(world, root, entries[1..], path,
        WalkNode(entries[0], child, inv, InventoryVisitor(world, root)).0,
        WalkNode(entries[0], child, seen, ScanVisitor(world, root)).0);
    }
  }

  lemma RootDominates(world: World, path: Path, root: Root, inv: Inventory, seen: Seen)
    requires Kept(inv) && seen.Keys <= inv.seen
    requires WalkRoot(root, path, inv, InventoryVisitor(world, path)).1 == Continue
    ensures var (seen', scan) := WalkRoot(root, path, seen, ScanVisitor(world, path));
            var inv' := WalkRoot(root, path, inv, InventoryVisitor(world, path)).0;
            scan == Continue && seen'.Keys <= inv'.seen && Kept(inv')
  {
    match root
    case Missing(fault) =>
      VisitDominates(world, path, inv, seen, Failed(path, fault));
      InventoryVisitGrows(world, path, inv, Failed(path, fault));
    case Present(node) =>
      NodeDominates(world, path, node, path, inv, seen);
      InventoryGrows(world, path, node, path, inv);
  }

  lemma {:induction false} RootsDominate(world: World, roots: seq<(Path, Root)>, inv: Inventory, seen: Seen)
    requires Kept(inv) && seen.Keys <= inv.seen && InventoryFrom(world, roots, inv).Some?
    ensures ScanFrom(world, roots, seen).Some?
    ensures ScanFrom(world, roots, seen).value.Keys <= InventoryFrom(world, roots, inv).value.seen
    ensures Kept(InventoryFrom(world, roots, inv).value)
  {
    if roots != [] {
      var (path, root) := roots[0];
      RootDominates(world, path, root, inv, seen);
      RootsDominate(world, roots[1..],
        WalkRoot(root, path, inv, InventoryVisitor(world, path)).0,
        WalkRoot(root, path, seen, ScanVisitor(world, path)).0);
    }
  }

  /** On one and the same file system, whatever faults it has: when the deletion inventory succeeds,
      the display scan succeeds too and every file it shows is in the inventory. */
  lemma InventoryDominatesScan(world: World, roots: seq<(Path, Root)>)
    requires InventoryFrom(world, roots, Inventory([], {}, 0)).Some?
    ensures ScanFrom(world, roots, map[]).Some?
    ensures forall p :: p in ScanFrom(world, roots, map[]).value ==>
              exists i :: 0 <= i < |InventoryFrom(world, roots, Inventory([], {}, 0)).value.files|
                && InventoryFrom(world, roots, Inventory([], {}, 0)).value.files[i].file == p
  {
    RootsDominate(world, roots, Inventory([], {}, 0), map[]);
  }
}
