/** The batched directory walk shared by the display scan and the deletion inventory. */
module Walker {
  import opened Paths
  import opened Options

  datatype Fault = NotExist | Permission | OtherFault

  /** A file tree as one walk finds it. A leaf is anything that is not a directory, symbolic links
      included. A directory may fail to open. */
  datatype Node = Leaf(name: string) | Dir(name: string, openFault: Option<Fault>, listing: Listing)

  /** The answers of successive directory reads: batches of entries, then the end or a fault. */
  datatype Listing = End(readFault: Option<Fault>) | Batch(entries: seq<Node>, rest: Listing)

  /** A scan root: missing, or the tree below it. */
  datatype Root = Missing(fault: Fault) | Present(node: Node)

  /** One call of the visitor. */
  datatype Visit = Enter(path: Path, name: string, isDir: bool) | Failed(path: Path, fault: Fault)

  datatype Verdict = Continue | SkipDir | Abort(fault: Fault)

  // ----- the walk as a function of the visitor ---------------------------------------------

  function WalkNode<S>(node: Node, path: Path, s: S, visit: (S, Visit) -> (S, Verdict)): (S, Verdict)
    decreases node, 1
  {
    var (s, verdict) := visit(s, Enter(path, node.name, node.Dir?));
    if verdict == SkipDir && node.Dir? then (s, Continue)
    else if verdict != Continue || node.Leaf? then (s, verdict)
    else if node.openFault.Some? then visit(s, Failed(path, node.openFault.value))
    else WalkListing(node.listing, path, s, visit)
  }

  function WalkListing<S>(listing: Listing, path: Path, s: S, visit: (S, Visit) -> (S, Verdict)): (S, Verdict)
    decreases listing, 0
  {
    match listing
    case End(None) => (s, Continue)
    case End(Some(fault)) => visit(s, Failed(path, fault))
    case Batch(entries, rest) =>
      var (s, verdict) := WalkEntries(entries, path, s, visit);
      if verdict != Continue then (s, verdict) else WalkListing(rest, path, s, visit)
  }

  function WalkEntries<S>(entries: seq<Node>, path: Path, s: S, visit: (S, Visit) -> (S, Verdict)): (S, Verdict)
    decreases entries, 0
  {
    if entries == [] then (s, Continue)
    else
      var (s, verdict) := WalkNode(entries[0], path + [entries[0].name], s, visit);
      if verdict != Continue then (s, verdict) else WalkEntries(entries[1..], path, s, visit)
  }

  function WalkRoot<S>(root: Root, path: Path, s: S, visit: (S, Visit) -> (S, Verdict)): (S, Verdict) {
    match root
    case Missing(fault) => visit(s, Failed(path, fault))
    case Present(node) => WalkNode(node, path, s, visit)
  }

  // ----- the walk as the source runs it ------------------------------------------------------

  method WalkDiscoveryEntry<S>(path: Path, node: Node, s0: S, visit: (S, Visit) -> (S, Verdict))
    returns (s: S, verdict: Verdict)
    ensures (s, verdict) == WalkNode(node, path, s0, visit)
    decreases node
  {
    var step := visit(s0, Enter(path, node.name, node.Dir?));
    s, verdict := step.0, step.1;
    if verdict != Continue {
      if verdict == SkipDir && node.Dir? {
        verdict := Continue;
      }
      return;
    }
    if node.Leaf? {
      return;
    }
    if node.openFault.Some? {
      step := visit(s, Failed(path, node.openFault.value));
      return step.0, step.1;
    }
    var listing := node.listing;
    while listing.Batch?
      invariant listing < node
      invariant WalkListing(node.listing, path, step.0, visit) == WalkListing(listing, path, s, visit)
      invariant verdict == Continue
      decreases listing
    {
      var entries := listing.entries;
      ghost var s1 := s;
      for i := 0 to |entries|
        invariant verdict == Continue
        invariant WalkEntries(entries, path, s1, visit) == WalkEntries(entries[i..], path, s, visit)
      {
        s, verdict := WalkDiscoveryEntry(path + [entries[i].name], entries[i], s, visit);
        assert entries[i..][0] == entries[i] && entries[i..][1..] == entries[i + 1..];
        if verdict != Continue {
          return;
        }
      }
      listing := listing.rest;
    }
    if listing.readFault.Some? {
      step := visit(s, Failed(path, listing.readFault.value));
      s, verdict := step.0, step.1;
    }
  }

  // ----- what every walk guarantees ------------------------------------------------------------

  /** The visitor asks to skip only when it enters a directory. */
  ghost predicate SkipsOnlyDirectories<S(!new)>(visit: (S, Visit) -> (S, Verdict)) {
    forall s, v {:trigger visit(s, v)} :: visit(s, v).1 == SkipDir ==> v.Enter? && v.isDir
  }

  /** A skip never escapes from the walk as if it were a scan failure. */
  lemma {:induction false} SkipNeverEscapes<S(!new)>(node: Node, path: Path, s: S, visit: (S, Visit) -> (S, Verdict))
    requires SkipsOnlyDirectories(visit)
    ensures WalkNode(node, path, s, visit).1 != SkipDir
    decreases node, 1
  {
    var (s1, verdict) := visit(s, Enter(path, node.name, node.Dir?));
    if node.Dir? && verdict == Continue && node.openFault.None? {
      SkipNeverEscapesListing(node.listing, path, s1, visit);
    }
  }

  lemma {:induction false} SkipNeverEscapesListing<S(!new)>(listing: Listing, path: Path, s: S,
                                                            visit: (S, Visit) -> (S, Verdict))
    requires SkipsOnlyDirectories(visit)
    ensures WalkListing(listing, path, s, visit).1 != SkipDir
    decreases listing, 0
  {
    if listing.Batch? {
      SkipNeverEscapesEntries(listing.entries, path, s, visit);
      SkipNeverEscapesListing(listing.rest, path, WalkEntries(listing.entries, path, s, visit).0, visit);
    }
  }

  lemma {:induction false} SkipNeverEscapesEntries<S(!new)>(entries: seq<Node>, path: Path, s: S,
                                                            visit: (S, Visit) -> (S, Verdict))
    requires SkipsOnlyDirectories(visit)
    ensures WalkEntries(entries, path, s, visit).1 != SkipDir
    decreases entries, 0
  {
    if entries != [] {
      var child := path + [entries[0].name];
      SkipNeverEscapes(entries[0], child, s, visit);
      SkipNeverEscapesEntries(entries[1..], path, WalkNode(entries[0], child, s, visit).0, visit);
    }
  }

  /** Every visit keeps the property. */
  ghost predicate Keeps<S(!new)>(visit: (S, Visit) -> (S, Verdict), good: S -> bool) {
    forall s, v {:trigger visit(s, v)} :: good(s) ==> good(visit(s, v).0)
  }

  /** What every visit keeps, the walk keeps. */
  lemma {:induction false} WalkKeeps<S(!new)>(node: Node, path: Path, s: S, visit: (S, Visit) -> (S, Verdict),
                                              good: S -> bool)
    requires Keeps(visit, good) && good(s)
    ensures good(WalkNode(node, path, s, visit).0)
    decreases node, 1
  {
    var (s1, verdict) := visit(s, Enter(path, node.name, node.Dir?));
    if node.Dir? && verdict == Continue && node.openFault.None? {
      ListingKeeps(node.listing, path, s1, visit, good);
    }
  }

  lemma {:induction false} ListingKeeps<S(!new)>(listing: Listing, path: Path, s: S,
                                                 visit: (S, Visit) -> (S, Verdict), good: S -> bool)
    requires Keeps(visit, good) && good(s)
    ensures good(WalkListing(listing, path, s, visit).0)
    decreases listing, 0
  {
    if listing.Batch? {
      EntriesKeep(listing.entries, path, s, visit, good);
      ListingKeeps(listing.rest, path, WalkEntries(listing.entries, path, s, visit).0, visit, good);
    }
  }

  lemma {:induction false} EntriesKeep<S(!new)>(entries: seq<Node>, path: Path, s: S,
                                                visit: (S, Visit) -> (S, Verdict), good: S -> bool)
    requires Keeps(visit, good) && good(s)
    ensures good(WalkEntries(entries, path, s, visit).0)
    decreases entries, 0
  {
    if entries != [] {
      var child := path + [entries[0].name];
      WalkKeeps(entries[0], child, s, visit, good);
      EntriesKeep(entries[1..], path, WalkNode(entries[0], child, s, visit).0, visit, good);
    }
  }

  /** The same tree read in one batch per directory. */
  function Rebatch(node: Node): Node
    decreases node, 1
  {
    if node.Leaf? then node
    else
      var (entries, fault) := AllEntries(node.listing);
      Dir(node.name, node.openFault, Batch(entries, End(fault)))
  }

  function AllEntries(listing: Listing): (seq<Node>, Option<Fault>)
    decreases listing, 0
  {
    match listing
    case End(fault) => ([], fault)
    case Batch(entries, rest) =>
      var (more, fault) := AllEntries(rest);
      (RebatchAll(entries) + more, fault)
  }

  function RebatchAll(entries: seq<Node>): seq<Node>
    decreases entries, 0
  {
    if entries == [] then [] else [Rebatch(entries[0])] + RebatchAll(entries[1..])
  }

  lemma {:induction false} EntriesConcat<S>(a: seq<Node>, b: seq<Node>, path: Path, s: S,
                                            visit: (S, Visit) -> (S, Verdict))
    ensures WalkEntries(a + b, path, s, visit) ==
            var (s1, verdict) := WalkEntries(a, path, s, visit);
            if verdict != Continue then (s1, verdict) else WalkEntries(b, path, s1, visit)
  {
    if a == [] {
      assert a + b == b;
    } else {
      assert (a + b)[1..] == a[1..] + b;
      EntriesConcat(a[1..], b, path, WalkNode(a[0], path + [a[0].name], s, visit).0, visit);
    }
  }

  /** How the system cuts a directory into batches is invisible to every visitor. */
  lemma {:induction false} BatchesAreInvisible<S>(node: Node, path: Path, s: S, visit: (S, Visit) -> (S, Verdict))
    ensures WalkNode(node, path, s, visit) == WalkNode(Rebatch(node), path, s, visit)
    decreases node, 1
  {
    if node.Dir? {
      BatchesAreInvisibleListing(node.listing, path, visit(s, Enter(path, node.name, true)).0, visit);
    }
  }

  lemma {:induction false} BatchesAreInvisibleListing<S>(listing: Listing, path: Path, s: S,
                                                         visit: (S, Visit) -> (S, Verdict))
    ensures var (entries, fault) := AllEntries(listing);
            WalkListing(listing, path, s, visit) == WalkListing(Batch(entries, End(fault)), path, s, visit)
    decreases listing, 0
  {
    if listing.Batch? {
      var (more, fault) := AllEntries(listing.rest);
      BatchesAreInvisibleEntries(listing.entries, path, s, visit);
      BatchesAreInvisibleListing(listing.rest, path, WalkEntries(listing.entries, path, s, visit).0, visit);
      EntriesConcat(RebatchAll(listing.entries), more, path, s, visit);
    }
  }

  lemma {:induction false} BatchesAreInvisibleEntries<S>(entries: seq<Node>, path: Path, s: S,
                                                         visit: (S, Visit) -> (S, Verdict))
    ensures WalkEntries(entries, path, s, visit) == WalkEntries(RebatchAll(entries), path, s, visit)
    decreases entries, 0
  {
    if entries != [] {
      var child := path + [entries[0].name];
      BatchesAreInvisible(entries[0], child, s, visit);
      BatchesAreInvisibleEntries(entries[1..], path, WalkNode(entries[0], child, s, visit).0, visit);
      assert RebatchAll(entries)[1..] == RebatchAll(entries[1..]);
    }
  }

  // ----- which entries are visited ---------------------------------------------------------------

  predicate FaultFree(node: Node)
    decreases node, 1
  {
    node.Leaf? || (node.openFault.None? && FaultFreeListing(node.listing))
  }

  predicate FaultFreeListing(listing: Listing)
    decreases listing, 0
  {
    match listing
    case End(fault) => fault.None?
    case Batch(entries, rest) => (forall e | e in entries :: FaultFree(e)) && FaultFreeListing(rest)
  }

  /** Every path not below a skipped directory, directories before their contents. */
  function PreOrder(node: Node, path: Path, skip: (Path, string) -> bool): seq<Path>
    decreases node, 1
  {
    [path] + if node.Leaf? || skip(path, node.name) then [] else PreOrderListing(node.listing, path, skip)
  }

  function PreOrderListing(listing: Listing, path: Path, skip: (Path, string) -> bool): seq<Path>
    decreases listing, 0
  {
    if listing.End? then []
    else PreOrderEntries(listing.entries, path, skip) + PreOrderListing(listing.rest, path, skip)
  }

  function PreOrderEntries(entries: seq<Node>, path: Path, skip: (Path, string) -> bool): seq<Path>
    decreases entries, 0
  {
    if entries == [] then []
    else PreOrder(entries[0], path + [entries[0].name], skip) + PreOrderEntries(entries[1..], path, skip)
  }

  /** A visitor that writes down what it enters and skips some directories. */
  function Recorder(skip: (Path, string) -> bool): (seq<Path>, Visit) -> (seq<Path>, Verdict) {
    (s: seq<Path>, v: Visit) =>
      match v
      case Enter(path, name, isDir) => (s + [path], if isDir && skip(path, name) then SkipDir else Continue)
      case Failed(_, fault) => (s, Abort(fault))
  }

  lemma {:induction false} WalkIsPreOrder(node: Node, path: Path, s: seq<Path>, skip: (Path, string) -> bool)
    requires FaultFree(node)
    ensures WalkNode(node, path, s, Recorder(skip)) == (s + PreOrder(node, path, skip), Continue)
    decreases node, 1
  {
    if node.Dir? && !skip(path, node.name) {
      WalkIsPreOrderListing(node.listing, path, s + [path], skip);
      assert s + [path] + PreOrderListing(node.listing, path, skip) == s + PreOrder(node, path, skip);
    } else {
      assert PreOrder(node, path, skip) == [path];
    }
  }

  lemma {:induction false} WalkIsPreOrderListing(listing: Listing, path: Path, s: seq<Path>,
                                                 skip: (Path, string) -> bool)
    requires FaultFreeListing(listing)
    ensures WalkListing(listing, path, s, Recorder(skip)) == (s + PreOrderListing(listing, path, skip), Continue)
    decreases listing, 0
  {
    if listing.Batch? {
      var first := PreOrderEntries(listing.entries, path, skip);
      WalkIsPreOrderEntries(listing.entries, path, s, skip);
      WalkIsPreOrderListing(listing.rest, path, s + first, skip);
      assert s + first + PreOrderListing(listing.rest, path, skip) == s + PreOrderListing(listing, path, skip);
    } else {
      assert s + [] == s;
    }
  }

  lemma {:induction false} WalkIsPreOrderEntries(entries: seq<Node>, path: Path, s: seq<Path>,
                                                 skip: (Path, string) -> bool)
    requires forall e | e in entries :: FaultFree(e)
    ensures WalkEntries(entries, path, s, Recorder(skip)) == (s + PreOrderEntries(entries, path, skip), Continue)
    decreases entries, 0
  {
    hide FaultFree, PreOrder, WalkNode;
    if entries != [] {
      var first := PreOrder(entries[0], path + [entries[0].name], skip);
      WalkIsPreOrder(entries[0], path + [entries[0].name], s, skip);
      WalkIsPreOrderEntries(entries[1..], path, s + first, skip);
      assert s + first + PreOrderEntries(entries[1..], path, skip) == s + PreOrderEntries(entries, path, skip);
    } else {
      assert s + [] == s;
    }
  }

  /** All entries of a directory, whatever the batches. */
  function Children(listing: Listing): seq<Node> {
    if listing.End? then [] else listing.entries + Children(listing.rest)
  }

  ghost predicate DistinctNames(entries: seq<Node>) {
    forall i, j :: 0 <= i < j < |entries| ==> entries[i].name != entries[j].name
  }

  /** No directory lists two entries of one name. */
  ghost predicate WellNamed(node: Node)
    decreases node, 1
  {
    node.Leaf? || (DistinctNames(Children(node.listing)) && WellNamedListing(node.listing))
  }

  ghost predicate WellNamedListing(listing: Listing)
    decreases listing, 0
  {
    listing.End? || ((forall e | e in listing.entries :: WellNamed(e)) && WellNamedListing(listing.rest))
  }

  ghost predicate NoDuplicates(s: seq<Path>) {
    forall i, j :: 0 <= i < j < |s| ==> s[i] != s[j]
  }

  lemma {:induction false} PreOrderConcat(a: seq<Node>, b: seq<Node>, path: Path, skip: (Path, string) -> bool)
    ensures PreOrderEntries(a + b, path, skip) == PreOrderEntries(a, path, skip) + PreOrderEntries(b, path, skip)
  {
    if a == [] {
      assert a + b == b;
    } else {
      assert (a + b)[1..] == a[1..] + b;
      PreOrderConcat(a[1..], b, path, skip);
    }
  }

  lemma {:induction false} PreOrderChildren(listing: Listing, path: Path, skip: (Path, string) -> bool)
    ensures PreOrderListing(listing, path, skip) == PreOrderEntries(Children(listing), path, skip)
    ensures WellNamedListing(listing) ==> forall e | e in Children(listing) :: WellNamed(e)
  {
    if listing.Batch? {
      PreOrderChildren(listing.rest, path, skip);
      PreOrderConcat(listing.entries, Children(listing.rest), path, skip);
    }
  }

  lemma {:induction false} ChildrenSmaller(listing: Listing, k: nat)
    requires k < |Children(listing)|
    ensures Children(listing)[k] < listing
  {
    if k >= |listing.entries| { ChildrenSmaller(listing.rest, k - |listing.entries|); }
  }

  ghost predicate AllBelow(s: seq<Path>, path: Path) {
    forall i :: 0 <= i < |s| ==> path <= s[i]
  }

  lemma {:induction false} PreOrderBelow(node: Node, path: Path, skip: (Path, string) -> bool)
    ensures AllBelow(PreOrder(node, path, skip), path)
    ensures forall i :: 0 < i < |PreOrder(node, path, skip)| ==> |PreOrder(node, path, skip)[i]| > |path|
    decreases node, 1
  {
    if node.Dir? && !skip(path, node.name) {
      PreOrderChildren(node.listing, path, skip);
      var children := Children(node.listing);
      forall k | 0 <= k < |children| ensures children[k] < node { ChildrenSmaller(node.listing, k); }
      PreOrderEntriesBelow(node, children, path, skip);
      forall i | 0 < i < |PreOrder(node, path, skip)|
        ensures path <= PreOrder(node, path, skip)[i] && |PreOrder(node, path, skip)[i]| > |path|
      {
        var p := PreOrder(node, path, skip)[i];
        assert p == PreOrderEntries(children, path, skip)[i - 1];
        assert p in PreOrderEntries(children, path, skip);
        var k :| 0 <= k < |children| && path + [children[k].name] <= p;
      }
    }
  }

  lemma {:induction false} PreOrderEntriesBelow(parent: Node, entries: seq<Node>, path: Path,
                                                skip: (Path, string) -> bool)
    requires forall k :: 0 <= k < |entries| ==> entries[k] < parent
    ensures forall p :: p in PreOrderEntries(entries, path, skip) ==>
              exists k :: 0 <= k < |entries| && path + [entries[k].name] <= p
    decreases parent, 0, |entries|
  {
    if entries != [] {
      var first := path + [entries[0].name];
      PreOrderBelow(entries[0], first, skip);
      PreOrderEntriesBelow(parent, entries[1..], path, skip);
      forall p | p in PreOrderEntries(entries, path, skip)
        ensures exists k :: 0 <= k < |entries| && path + [entries[k].name] <= p
      {
        if p in PreOrder(entries[0], first, skip) {
          assert first <= p;
        } else {
          assert p in PreOrderEntries(entries[1..], path, skip);
          var k :| 0 <= k < |entries| - 1 && path + [entries[1..][k].name] <= p;
          assert path + [entries[k + 1].name] <= p;
        }
      }
    }
  }

  /** On a well-named tree no path is visited twice. */
  lemma {:induction false} VisitedOnce(node: Node, path: Path, skip: (Path, string) -> bool)
    requires WellNamed(node)
    ensures NoDuplicates(PreOrder(node, path, skip))
    decreases node, 1
  {
    if node.Dir? && !skip(path, node.name) {
      PreOrderChildren(node.listing, path, skip);
      var children := Children(node.listing);
      forall k | 0 <= k < |children| ensures children[k] < node { ChildrenSmaller(node.listing, k); }
      EntriesVisitedOnce(node, children, path, skip);
      PreOrderBelow(node, path, skip);
    }
  }

  lemma {:induction false} EntriesVisitedOnce(parent: Node, entries: seq<Node>, path: Path,
                                              skip: (Path, string) -> bool)
    requires forall k :: 0 <= k < |entries| ==> entries[k] < parent && WellNamed(entries[k])
    requires DistinctNames(entries)
    ensures NoDuplicates(PreOrderEntries(entries, path, skip))
    decreases parent, 0, |entries|
  {
    if entries != [] {
      var first := path + [entries[0].name];
      var head, tail := PreOrder(entries[0], first, skip), PreOrderEntries(entries[1..], path, skip);
      VisitedOnce(entries[0], first, skip);
      EntriesVisitedOnce(parent, entries[1..], path, skip);
      PreOrderBelow(entries[0], first, skip);
      PreOrderEntriesBelow(parent, entries[1..], path, skip);
      forall i, j | 0 <= i < |head| && 0 <= j < |tail| ensures head[i] != tail[j] {
        assert tail[j] in tail;
        var k :| 0 <= k < |entries| - 1 && path + [entries[1..][k].name] <= tail[j];
        assert tail[j][|path|] == entries[k + 1].name && head[i][|path|] == entries[0].name;
      }
    }
  }
}
