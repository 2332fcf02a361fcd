/** Exactly what a successful deletion inventory holds. */
module InventoryReach {
  import opened Paths
  import opened Options
  import opened Walker
  import opened Discovery

  /** The inventory does not enter this directory. */
  predicate LeftOut(root: Path, path: Path, name: string) {
    path != root && InventorySkips(name)
  }

  /** How the reading of a directory ended. */
  function LastFault(listing: Listing): Option<Fault> {
    match listing
    case End(fault) => fault
    case Batch(_, rest) => LastFault(rest)
  }

  /** Access is refused when the directory is opened or while it is read. */
  predicate Denied(node: Node) {
    && node.Dir?
    && (node.openFault == Some(Permission) || (node.openFault.None? && LastFault(node.listing) == Some(Permission)))
  }

  /** The entry itself puts this record into the inventory: a Compose file the record of what it holds,
      a directory that refuses access its marker. */
  predicate Yields(world: World, root: Path, node: Node, path: Path, f: RemovalFile) {
    if node.Leaf? then
      && IsComposeFilename(node.name) && world.resolve(path).Some?
      && IsRecord(world, world.resolve(path).value, f)
    else !LeftOut(root, path, node.name) && Denied(node) && IsMarker(path, f)
  }

  /** The record of a Compose file holds what was decoded from it, and the directory it is in. */
  predicate IsRecord(world: World, r: Path, f: RemovalFile) {
    && world.project(r).Some? && world.references(r).Some?
    && var (project, references) := (world.project(r).value, world.references(r).value);
    && f.file == r && f.workingDir == (if r == [] then [] else r[..|r| - 1])
    && f.key == project.key && f.name == project.name && f.images == project.images
    && f.sha == references.sha && f.binds == references.binds && f.volumes == references.volumes
    && f.uncertain == references.uncertain
  }

  /** A marker stands for everything that could be in a directory: it is uncertain and names nothing. */
  predicate IsMarker(path: Path, f: RemovalFile) {
    && f.file == path && f.uncertain && f.key == "" && f.workingDir == [] && f.sha == ""
    && f.images == [] && f.binds == [] && f.volumes == [] && f.name == "unreadable directory"
  }

  /** The entry with these names below the node yields the record, and no directory on the way is left
      out or cannot be opened. */
  ghost predicate YieldsAt(world: World, root: Path, node: Node, path: Path, rel: Path, f: RemovalFile)
    decreases |rel|
  {
    if rel == [] then Yields(world, root, node, path, f)
    else
      && node.Dir? && node.openFault.None? && !LeftOut(root, path, node.name)
      && exists k :: 0 <= k < |Children(node.listing)| && Children(node.listing)[k].name == rel[0]
           && YieldsAt(world, root, Children(node.listing)[k], path + [rel[0]], rel[1..], f)
  }

  ghost predicate Below(world: World, root: Path, node: Node, path: Path, f: RemovalFile) {
    exists rel :: YieldsAt(world, root, node, path, rel, f)
  }

  ghost predicate Among(world: World, root: Path, entries: seq<Node>, path: Path, f: RemovalFile) {
    exists k :: 0 <= k < |entries| && Below(world, root, entries[k], path + [entries[k].name], f)
  }

  lemma BelowLeaf(world: World, root: Path, node: Node, path: Path, f: RemovalFile)
    requires node.Leaf?
    ensures Below(world, root, node, path, f) <==> Yields(world, root, node, path, f)
  {
    hide Yields;
    if Yields(world, root, node, path, f) {
      assert YieldsAt(world, root, node, path, [], f);
    }
  }

  lemma BelowDirectory(world: World, root: Path, node: Node, path: Path, f: RemovalFile)
    requires node.Dir?
    ensures Below(world, root, node, path, f) <==>
            || Yields(world, root, node, path, f)
            || (node.openFault.None? && !LeftOut(root, path, node.name)
                && Among(world, root, Children(node.listing), path, f))
  {
    hide Yields, LeftOut;
    var children := Children(node.listing);
    if Below(world, root, node, path, f) {
      var rel :| YieldsAt(world, root, node, path, rel, f);
      if rel != [] {
        var k :| 0 <= k < |children| && children[k].name == rel[0]
          && YieldsAt(world, root, children[k], path + [rel[0]], rel[1..], f);
        assert Below(world, root, children[k], path + [children[k].name], f);
      }
    }
    if Yields(world, root, node, path, f) {
      assert YieldsAt(world, root, node, path, [], f);
    }
    if node.openFault.None? && !LeftOut(root, path, node.name) && Among(world, root, children, path, f) {
      var k :| 0 <= k < |children| && Below(world, root, children[k], path + [children[k].name], f);
      var rest :| YieldsAt(world, root, children[k], path + [children[k].name], rest, f);
      var rel := [children[k].name] + rest;
      assert rel[0] == children[k].name && rel[1..] == rest;
      assert YieldsAt(world, root, node, path, rel, f);
    }
  }

  lemma AmongFirst(world: World, root: Path, entries: seq<Node>, path: Path, f: RemovalFile)
    requires entries != []
    ensures Among(world, root, entries, path, f) <==>
            Below(world, root, entries[0], path + [entries[0].name], f) || Among(world, root, entries[1..], path, f)
  {
    hide Below;
    if Among(world, root, entries, path, f) {
      var k :| 0 <= k < |entries| && Below(world, root, entries[k], path + [entries[k].name], f);
      if k > 0 {
        assert entries[1..][k - 1] == entries[k];
      }
    }
    if Among(world, root, entries[1..], path, f) {
      var k :| 0 <= k < |entries| - 1 && Below(world, root, entries[1..][k], path + [entries[1..][k].name], f);
      assert entries[k + 1] == entries[1..][k];
    }
  }

  // ----- the records ---------------------------------------------------------------------------------

  /** Every remembered path has its record, every record is a marker or of a remembered path, and no
      path has two records. */
  ghost predicate Tidy(world: World, inv: Inventory) {
    && (forall p :: p in inv.seen ==> exists f :: f in inv.files && IsRecord(world, p, f))
    && (forall f :: f in inv.files ==>
          IsMarker(f.file, f) || (f.file in inv.seen && IsRecord(world, f.file, f)))
    && (forall i, j :: 0 <= i < j < |inv.files| && inv.files[i].file == inv.files[j].file ==>
          IsMarker(inv.files[i].file, inv.files[i]) || IsMarker(inv.files[j].file, inv.files[j]))
  }

  /** The inventory grew by exactly what a part of the file system yields. */
  ghost predicate Gained(world: World, before: Inventory, after: Inventory, f: RemovalFile, added: bool) {
    Tidy(world, after) && (f in after.files <==> f in before.files || added)
  }

  /** What one visit yields. */
  predicate VisitYields(world: World, v: Visit, f: RemovalFile) {
    match v
    case Failed(path, fault) => fault == Permission && IsMarker(path, f)
    case Enter(path, name, isDir) =>
      && !isDir && IsComposeFilename(name) && world.resolve(path).Some?
      && IsRecord(world, world.resolve(path).value, f)
  }

  lemma VisitGains(world: World, root: Path, inv: Inventory, v: Visit, f: RemovalFile)
    requires Tidy(world, inv) && !InventoryVisit(world, root, inv, v).1.Abort?
    ensures Gained(world, inv, InventoryVisit(world, root, inv, v).0, f, VisitYields(world, v, f))
  {
    hide IsComposeFilename;
    var inv' := InventoryVisit(world, root, inv, v).0;
    if inv'.files != inv.files {
      var added := inv'.files[|inv.files|];
      assert inv'.files == inv.files + [added];
      OneMoreRecord(world, inv, inv', added);
    } else {
      SameRecords(world, inv, inv');
    }
  }

  lemma SameRecords(world: World, inv: Inventory, inv': Inventory)
    requires Tidy(world, inv) && inv'.files == inv.files && inv'.seen == inv.seen
    ensures Tidy(world, inv')
  {
  }

  lemma OneMoreRecord(world: World, inv: Inventory, inv': Inventory, added: RemovalFile)
    requires Tidy(world, inv) && inv'.files == inv.files + [added]
    requires || (IsMarker(added.file, added) && inv'.seen == inv.seen)
             || (added.file !in inv.seen && inv'.seen == inv.seen + {added.file}
                 && IsRecord(world, added.file, added))
    ensures Tidy(world, inv')
  {
    hide IsRecord, IsMarker;
  }

  // ----- the walk ---------------------------------------------------------------------------------------

  lemma {:induction false} ListingFromChildren(world: World, root: Path, listing: Listing, path: Path, inv: Inventory)
    requires WalkListing(listing, path, inv, InventoryVisitor(world, root)).1 == Continue
    ensures WalkEntries(Children(listing), path, inv, InventoryVisitor(world, root)).1 == Continue
    ensures var read := WalkEntries(Children(listing), path, inv, InventoryVisitor(world, root)).0;
            match LastFault(listing)
            case None => WalkListing(listing, path, inv, InventoryVisitor(world, root)) == (read, Continue)
            case Some(fault) =>
              WalkListing(listing, path, inv, InventoryVisitor(world, root)) ==
              InventoryVisit(world, root, read, Failed(path, fault))
  {
    if listing.Batch? {
      var visit := InventoryVisitor(world, root);
      EntriesConcat(listing.entries, Children(listing.rest), path, inv, visit);
      ListingFromChildren(world, root, listing.rest, path, WalkEntries(listing.entries, path, inv, visit).0);
    }
  }

  lemma {:induction false} NodeGains(world: World, root: Path, node: Node, path: Path, inv: Inventory, f: RemovalFile)
    requires Tidy(world, inv) && WalkNode(node, path, inv, InventoryVisitor(world, root)).1 == Continue
    ensures Gained(world, inv, WalkNode(node, path, inv, InventoryVisitor(world, root)).0, f,
                   Below(world, root, node, path, f))
    decreases node, 1
  {
    hide Tidy, IsRecord, IsMarker, IsComposeFilename, InventorySkips;
    var (inv1, verdict) := InventoryVisit(world, root, inv, Enter(path, node.name, node.Dir?));
    VisitGains(world, root, inv, Enter(path, node.name, node.Dir?), f);
    if node.Leaf? {
      BelowLeaf(world, root, node, path, f);
    } else {
      BelowDirectory(world, root, node, path, f);
      if verdict == Continue {
        if node.openFault.Some? {
          VisitGains(world, root, inv1, Failed(path, node.openFault.value), f);
        } else {
          OpenedGains(world, root, node, path, inv1, f);
        }
      }
    }
  }

  lemma {:induction false} OpenedGains(world: World, root: Path, node: Node, path: Path, inv: Inventory, f: RemovalFile)
    requires node.Dir? && node.openFault.None? && Tidy(world, inv)
    requires WalkListing(node.listing, path, inv, InventoryVisitor(world, root)).1 == Continue
    ensures Gained(world, inv, WalkListing(node.listing, path, inv, InventoryVisitor(world, root)).0, f,
                   Among(world, root, Children(node.listing), path, f)
                     || (LastFault(node.listing) == Some(Permission) && IsMarker(path, f)))
    decreases node, 0, |Children(node.listing)| + 1
  {
    hide Tidy, Among;
    var children := Children(node.listing);
    ListingFromChildren(world, root, node.listing, path, inv);
    forall k | 0 <= k < |children| ensures children[k] < node { ChildrenSmaller(node.listing, k); }
    EntriesGain(world, root, node, children, path, inv, f);
    if LastFault(node.listing).Some? {
      var read := WalkEntries(children, path, inv, InventoryVisitor(world, root)).0;
      VisitGains(world, root, read, Failed(path, LastFault(node.listing).value), f);
    }
  }

  lemma {:induction false} EntriesGain(world: World, root: Path, parent: Node, entries: seq<Node>, path: Path,
                                       inv: Inventory, f: RemovalFile)
    requires forall k :: 0 <= k < |entries| ==> entries[k] < parent
    requires Tidy(world, inv) && WalkEntries(entries, path, inv, InventoryVisitor(world, root)).1 == Continue
    ensures Gained(world, inv, WalkEntries(entries, path, inv, InventoryVisitor(world, root)).0, f,
                   Among(world, root, entries, path, f))
    decreases parent, 0, |entries|
  {
    hide Tidy, Below;
    if entries != [] {
      var child := path + [entries[0].name];
      NodeGains(world, root, entries[0], child, inv, f);
      EntriesGain(world, root, parent, entries[1..], path,
                  WalkNode(entries[0], child, inv, InventoryVisitor(world, root)).0, f);
      AmongFirst(world, root, entries, path, f);
    }
  }

  // ----- all roots ------------------------------------------------------------------------------------------

  /** The root yields the record: it refuses access itself, or something below it does or holds it. */
  ghost predicate RootYields(world: World, root: (Path, Root), f: RemovalFile) {
    match root.1
    case Missing(fault) => fault == Permission && IsMarker(root.0, f)
    case Present(node) => Below(world, root.0, node, root.0, f)
  }

  lemma RootGains(world: World, path: Path, root: Root, inv: Inventory, f: RemovalFile)
    requires Tidy(world, inv) && WalkRoot(root, path, inv, InventoryVisitor(world, path)).1 == Continue
    ensures Gained(world, inv, WalkRoot(root, path, inv, InventoryVisitor(world, path)).0, f,
                   RootYields(world, (path, root), f))
  {
    hide Tidy, Below;
    match root
    case Missing(fault) => VisitGains(world, path, inv, Failed(path, fault), f);
    case Present(node) => NodeGains(world, path, node, path, inv, f);
  }

  lemma {:induction false} RootsGain(world: World, roots: seq<(Path, Root)>, inv: Inventory, f: RemovalFile)
    requires Tidy(world, inv) && InventoryFrom(world, roots, inv).Some?
    ensures Gained(world, inv, InventoryFrom(world, roots, inv).value, f,
                   exists k :: 0 <= k < |roots| && RootYields(world, roots[k], f))
  {
    hide Tidy, RootYields, WalkRoot;
    if roots != [] {
      var (path, root) := roots[0];
      RootGains(world, path, root, inv, f);
      RootsGain(world, roots[1..], WalkRoot(root, path, inv, InventoryVisitor(world, path)).0, f);
      assert roots[0] == (path, root);
      if k :| 0 <= k < |roots| && RootYields(world, roots[k], f) {
        assert k > 0 ==> roots[1..][k - 1] == roots[k];
      }
      if k :| 0 <= k < |roots| - 1 && RootYields(world, roots[1..][k], f) {
        assert roots[k + 1] == roots[1..][k];
      }
    }
  }

  /** A successful inventory holds exactly: the record of every Compose file below a root that resolves,
      with no directory on the way left out, and a marker for every directory on such a way that refuses
      access. Every record belongs to one path, and no path has two. */
  lemma InventoryHolds(world: World, roots: seq<(Path, Root)>)
    requires InventoryFrom(world, roots, Inventory([], {}, 0)).Some?
    ensures var files := InventoryFrom(world, roots, Inventory([], {}, 0)).value.files;
            && (forall f :: f in files <==> exists k :: 0 <= k < |roots| && RootYields(world, roots[k], f))
            && (forall f :: f in files ==> IsMarker(f.file, f) || IsRecord(world, f.file, f))
            && (forall i, j :: 0 <= i < j < |files| && files[i].file == files[j].file ==>
                  IsMarker(files[i].file, files[i]) || IsMarker(files[j].file, files[j]))
  {
    hide RootYields, InventoryFrom;
    var inv := InventoryFrom(world, roots, Inventory([], {}, 0)).value;
    forall f ensures f in inv.files <==> exists k :: 0 <= k < |roots| && RootYields(world, roots[k], f) {
      RootsGain(world, roots, Inventory([], {}, 0), f);
    }
    RootsGain(world, roots, Inventory([], {}, 0), Marker([]));
  }

  // ----- when the inventory succeeds -------------------------------------------------------------------

  /** Nothing in or below the node stops the inventory: every Compose file it comes to resolves and can be
      decoded, and no directory fails otherwise than by refusing access. */
  ghost predicate Readable(world: World, root: Path, node: Node, path: Path)
    decreases node, 1
  {
    match node
    case Leaf(name) =>
      IsComposeFilename(name) ==>
        world.resolve(path).Some? && exists f :: IsRecord(world, world.resolve(path).value, f)
    case Dir(name, openFault, listing) =>
      || LeftOut(root, path, name) || openFault == Some(Permission)
      || (openFault == None && ReadableListing(world, root, listing, path))
  }

  ghost predicate ReadableListing(world: World, root: Path, listing: Listing, path: Path)
    decreases listing, 0
  {
    match listing
    case End(fault) => fault == None || fault == Some(Permission)
    case Batch(entries, rest) =>
      && (forall e | e in entries :: Readable(world, root, e, path + [e.name]))
      && ReadableListing(world, root, rest, path)
  }

  /** How many entries the inventory comes to. */
  function Entries(root: Path, node: Node, path: Path): nat
    decreases node, 1
  {
    1 + if node.Leaf? || LeftOut(root, path, node.name) || node.openFault.Some? then 0
        else ListingEntries(root, node.listing, path)
  }

  function ListingEntries(root: Path, listing: Listing, path: Path): nat
    decreases listing, 0
  {
    if listing.End? then 0
    else BatchEntries(root, listing.entries, path) + ListingEntries(root, listing.rest, path)
  }

  function BatchEntries(root: Path, entries: seq<Node>, path: Path): nat
    decreases entries, 0
  {
    if entries == [] then 0
    else Entries(root, entries[0], path + [entries[0].name]) + BatchEntries(root, entries[1..], path)
  }

  /** A part of the walk goes through exactly if nothing in it stops the inventory and the entries counted
      so far and those in it are not too many. */
  ghost predicate GoesOn(world: World, inv: Inventory, result: (Inventory, Verdict), readable: bool, entries: nat) {
    && (result.1 == Continue <==> readable && inv.count + entries <= 500000)
    && (result.1 == Continue ==> Tidy(world, result.0) && result.0.count == inv.count + entries)
  }

  lemma LeafGoesOn(world: World, root: Path, node: Node, path: Path, inv: Inventory)
    requires Tidy(world, inv) && node.Leaf?
    ensures GoesOn(world, inv, WalkNode(node, path, inv, InventoryVisitor(world, root)),
                   Readable(world, root, node, path), 1)
  {
    var (inv', verdict) := InventoryVisit(world, root, inv, Enter(path, node.name, false));
    if !verdict.Abort? {
      VisitGains(world, root, inv, Enter(path, node.name, false), Marker([]));
    }
    hide IsComposeFilename, LeftOut, Entries;
    if world.resolve(path).Some? {
      var r := world.resolve(path).value;
      Decoded(world, r);
      assert r in inv.seen ==> exists f :: f in inv.files && IsRecord(world, r, f);
    }
    hide IsRecord, Tidy;
  }

  lemma Decoded(world: World, r: Path)
    ensures (exists f :: IsRecord(world, r, f)) <==> world.project(r).Some? && world.references(r).Some?
  {
    if world.project(r).Some? && world.references(r).Some? {
      assert IsRecord(world, r, MakeFile(r, world.project(r).value, world.references(r).value));
    }
  }

  lemma FaultGoesOn(world: World, root: Path, path: Path, fault: Fault, inv: Inventory)
    requires Tidy(world, inv) && inv.count <= 500000
    ensures GoesOn(world, inv, InventoryVisit(world, root, inv, Failed(path, fault)), fault == Permission, 0)
  {
    hide Tidy;
    if fault == Permission {
      VisitGains(world, root, inv, Failed(path, fault), Marker([]));
    }
  }

  lemma {:induction false} NodeGoesOn(world: World, root: Path, node: Node, path: Path, inv: Inventory)
    requires Tidy(world, inv)
    ensures GoesOn(world, inv, WalkNode(node, path, inv, InventoryVisitor(world, root)),
                   Readable(world, root, node, path), Entries(root, node, path))
    decreases node, 1
  {
    hide Tidy;
    if node.Leaf? {
      LeafGoesOn(world, root, node, path, inv);
    } else {
      var enter := Enter(path, node.name, true);
      var (inv1, verdict) := InventoryVisit(world, root, inv, enter);
      if !verdict.Abort? {
        VisitGains(world, root, inv, enter, Marker([]));
      }
      if verdict == Continue {
        if node.openFault.Some? {
          FaultGoesOn(world, root, path, node.openFault.value, inv1);
        } else {
          ListingGoesOn(world, root, node.listing, path, inv1);
        }
      }
    }
  }

  lemma {:induction false} ListingGoesOn(world: World, root: Path, listing: Listing, path: Path, inv: Inventory)
    requires Tidy(world, inv) && inv.count <= 500000
    ensures GoesOn(world, inv, WalkListing(listing, path, inv, InventoryVisitor(world, root)),
                   ReadableListing(world, root, listing, path), ListingEntries(root, listing, path))
    decreases listing, 0
  {
    hide Tidy;
    match listing
    case End(fault) =>
      if fault.Some? {
        FaultGoesOn(world, root, path, fault.value, inv);
      }
    case Batch(entries, rest) =>
      EntriesGoOn(world, root, entries, path, inv);
      var (inv1, verdict) := WalkEntries(entries, path, inv, InventoryVisitor(world, root));
      if verdict == Continue {
        ListingGoesOn(world, root, rest, path, inv1);
      }
  }

  lemma {:induction false} EntriesGoOn(world: World, root: Path, entries: seq<Node>, path: Path, inv: Inventory)
    requires Tidy(world, inv) && inv.count <= 500000
    ensures GoesOn(world, inv, WalkEntries(entries, path, inv, InventoryVisitor(world, root)),
                   forall e | e in entries :: Readable(world, root, e, path + [e.name]),
                   BatchEntries(root, entries, path))
    decreases entries, 0
  {
    hide Tidy;
    if entries != [] {
      var child := path + [entries[0].name];
      NodeGoesOn(world, root, entries[0], child, inv);
      var (inv1, verdict) := WalkNode(entries[0], child, inv, InventoryVisitor(world, root));
      if verdict == Continue {
        EntriesGoOn(world, root, entries[1..], path, inv1);
      }
      assert entries == [entries[0]] + entries[1..];
    }
  }

  ghost predicate RootReadable(world: World, root: (Path, Root)) {
    match root.1
    case Missing(fault) => fault == Permission
    case Present(node) => Readable(world, root.0, node, root.0)
  }

  function RootEntries(root: (Path, Root)): nat {
    if root.1.Missing? then 0 else Entries(root.0, root.1.node, root.0)
  }

  function TotalEntries(roots: seq<(Path, Root)>): nat {
    if roots == [] then 0 else RootEntries(roots[0]) + TotalEntries(roots[1..])
  }

  lemma RootGoesOn(world: World, path: Path, root: Root, inv: Inventory)
    requires Tidy(world, inv) && inv.count <= 500000
    ensures GoesOn(world, inv, WalkRoot(root, path, inv, InventoryVisitor(world, path)),
                   RootReadable(world, (path, root)), RootEntries((path, root)))
  {
    hide Tidy;
    match root
    case Missing(fault) => FaultGoesOn(world, path, path, fault, inv);
    case Present(node) => NodeGoesOn(world, path, node, path, inv);
  }

  lemma {:induction false} RootsGoOn(world: World, roots: seq<(Path, Root)>, inv: Inventory)
    requires Tidy(world, inv) && inv.count <= 500000
    ensures InventoryFrom(world, roots, inv).Some? <==>
            (forall k :: 0 <= k < |roots| ==> RootReadable(world, roots[k]))
              && inv.count + TotalEntries(roots) <= 500000
  {
    hide Tidy, RootReadable, WalkRoot, RootEntries;
    if roots != [] {
      var (path, root) := roots[0];
      RootGoesOn(world, path, root, inv);
      var (inv1, verdict) := WalkRoot(root, path, inv, InventoryVisitor(world, path));
      assert roots[0] == (path, root);
      if verdict == Continue {
        RootsGoOn(world, roots[1..], inv1);
      }
      var rest := roots[1..];
      assert (forall k :: 0 <= k < |roots| ==> RootReadable(world, roots[k])) <==>
             RootReadable(world, roots[0]) && forall k :: 0 <= k < |rest| ==> RootReadable(world, rest[k]) by {
        assert forall k :: 0 < k < |roots| ==> roots[k] == rest[k - 1];
      }
    }
  }

  /** The inventory succeeds exactly if nothing it comes to stops it: every Compose file resolves and can
      be decoded, every directory can be read or refuses access, and there are at most five hundred
      thousand entries. */
  lemma InventorySucceeds(world: World, roots: seq<(Path, Root)>)
    ensures InventoryFrom(world, roots, Inventory([], {}, 0)).Some? <==>
            (forall k :: 0 <= k < |roots| ==> RootReadable(world, roots[k])) && TotalEntries(roots) <= 500000
  {
    RootsGoOn(world, roots, Inventory([], {}, 0));
  }
}
