/** The removal protocol of the service: preview, confirmation, deletion. */
module DeleteProject {
  import opened Paths
  import opened Docker
  import opened Options
  import opened Sorting
  import opened Discovery
  import opened DiscoveryReach
  import opened RemovalPaths
  import opened RemovalPlan
  import opened RemovalItems
  import opened RemovalTrace
  import opened Tickets
  import opened SharedGate
  import Gate = UpdateGate

  /** Docker, the file system, the audit store and the clock, as one thread calls them. Each call may
      answer anything, and before each of them all other threads may move. The trace records what was
      asked and what came back. */
  class System {
    const shared: SharedState
    /** The thread that makes the calls. */
    const thread: int
    ghost var trace: seq<Event>
    /** For every event, the state of the gate in which it happened. */
    ghost var moments: seq<nat>
    /** The states of the gate and the moments up to the place where the thread last took a step. */
    ghost var earlier: seq<Gate.State>
    ghost var earlierMoments: seq<nat>
    var time: int

    ghost predicate Valid()
      reads this, shared
    {
      && shared.Valid() && |moments| == |trace|
      && (forall k :: 0 <= k < |moments| ==> moments[k] < |shared.history|)
      && (forall j, k :: 0 <= j < k < |moments| ==> moments[j] <= moments[k])
    }

    /** Between two requests the thread has nothing to do with the gate. */
    ghost predicate Resting()
      reads this, shared
    {
      Valid() && thread !in shared.current.threads
    }

    /** Since its last step the thread stands where that step has brought it, and everything it has read
        or done since it did in the states since. */
    ghost predicate Steady()
      reads this, shared
    {
      && Valid() && earlier != [] && earlier <= shared.history && earlierMoments <= moments
      && var s := earlier[|earlier| - 1];
      && thread in s.threads && shared.Waits(thread, s.threads[thread], |earlier| - 1)
      && forall k :: |earlierMoments| <= k < |moments| ==> |earlier| - 1 <= moments[k]
    }

    /** Where the last step has brought the thread. */
    ghost predicate StandsAs(at: Gate.Thread)
      reads this`earlier
    {
      earlier != [] && thread in earlier[|earlier| - 1].threads && earlier[|earlier| - 1].threads[thread] == at
    }

    constructor (shared: SharedState, thread: int)
      requires shared.Valid() && thread !in shared.current.threads
      ensures Resting() && trace == [] && this.shared == shared && this.thread == thread
    {
      this.shared, this.thread := shared, thread;
      trace, moments, earlier, earlierMoments, time := [], [], [], [], 0;
    }

    /** The thread has just taken a step. */
    ghost method Settle()
      requires Valid() && thread in shared.current.threads
      modifies this`earlier, this`earlierMoments
      ensures Steady() && earlier == shared.history && earlierMoments == moments
      ensures StandsAs(shared.current.threads[thread])
    {
      LastOfRun(shared.history);
      earlier, earlierMoments := shared.history, moments;
    }

    /** Leaves the gate after a deletion. */
    method LeaveAlone()
      requires Steady() && StandsAs(Gate.Deleter(Gate.Passed))
      modifies shared
      ensures Resting() && earlier <= shared.history
      ensures earlierMoments <= moments && AllAlone(shared.history, moments, |earlierMoments|, thread)
    {
      hide Gate.Run, Alone;
      forall k | |earlierMoments| <= k < |moments| ensures Alone(shared.history[moments[k]], thread) {
        PassedIsAlone(shared.history, moments[k], thread);
      }
      shared.OthersMove(thread);
      shared.Unlock(thread);
    }

    /** Leaves the gate after reading. */
    method LeaveReading()
      requires Steady() && StandsAs(Gate.Operation(true))
      modifies shared
      ensures Resting() && earlier <= shared.history
      ensures earlierMoments <= moments && NobodyEverDeletes(shared.history, moments, |earlierMoments|)
    {
      hide Gate.Run, NobodyDeletes;
      forall k | |earlierMoments| <= k < |moments| ensures NobodyDeletes(shared.history[moments[k]]) {
        InsideNobodyDeletes(shared.history, moments[k], thread);
      }
      shared.OthersMove(thread);
      shared.ReadUnlock(thread);
    }

    /** An event happens in the state in which the other threads have left the gate. */
    method Happens(ghost e: Event)
      requires Steady()
      modifies this`trace, this`moments, shared
      ensures Steady() && trace == old(trace) + [e] && moments == old(moments) + [|shared.history| - 1]
    {
      hide Gate.Run;
      shared.OthersMove(thread);
      trace, moments := trace + [e], moments + [|shared.history| - 1];
    }

    method Now() returns (now: int)
      requires Steady()
      modifies this`trace, this`moments, this`time, shared
      ensures Steady() && trace == old(trace) + [ReadClock(now)] && old(time) <= now == time
    {
      var passed :| passed >= 0;
      time := time + passed;
      now := time;
      Happens(ReadClock(now));
    }

    method Inventory() returns (files: Option<seq<RemovalFile>>)
      requires Steady()
      modifies this`trace, this`moments, shared
      ensures Steady() && trace == old(trace) + [ReadInventory(files)]
    {
      files := *;
      Happens(ReadInventory(files));
    }

    method Resources() returns (resources: Option<Docker.Resources>)
      requires Steady()
      modifies this`trace, this`moments, shared
      ensures Steady() && trace == old(trace) + [ReadResources(resources)]
    {
      resources := *;
      Happens(ReadResources(resources));
    }

    method Images() returns (images: Option<seq<Image>>)
      requires Steady()
      modifies this`trace, this`moments, shared
      ensures Steady() && trace == old(trace) + [ReadImages(images)]
    {
      images := *;
      Happens(ReadImages(images));
    }

    method Probe(path: Path) returns (probe: RemovalPlan.Probe)
      requires Steady()
      modifies this`trace, this`moments, shared
      ensures Steady() && trace == old(trace) + [ReadProbe(path, probe)]
    {
      probe := *;
      Happens(ReadProbe(path, probe));
    }

    method Tree(path: Path) returns (tree: seq<TreeEntry>)
      requires Steady()
      modifies this`trace, this`moments, shared
      ensures Steady() && trace == old(trace) + [ReadTree(path, tree)]
    {
      tree := *;
      Happens(ReadTree(path, tree));
    }

    method ResolveComposeFile(path: Path) returns (resolved: Option<Path>)
      requires Steady()
      modifies this`trace, this`moments, shared
      ensures Steady() && trace == old(trace) + [ResolveFile(path, resolved)]
    {
      resolved := *;
      Happens(ResolveFile(path, resolved));
    }

    /** The contents of a file, or nothing useful when it cannot be read. */
    method ReadFile(path: Path) returns (ok: bool, data: string)
      requires Steady()
      modifies this`trace, this`moments, shared
      ensures Steady() && trace == old(trace) + [ReadSource(path, data, ok)]
    {
      ok, data := *, *;
      Happens(ReadSource(path, data, ok));
    }

    /** Every call that changes something outside the process. */
    method Act(e: Event) returns (ok: bool)
      requires Steady() && !IsRead(e) && e.ok
      modifies this`trace, this`moments, shared
      ensures Steady() && trace == old(trace) + [if ok then e else AsFailed(e)]
    {
      ok := *;
      Happens(if ok then e else AsFailed(e));
    }
  }

  datatype Result = Result(deleted: seq<string>, retained: seq<string>, errors: seq<string>)

  function FinalStatus(result: Result): (status: string)
    ensures status in {"success", "partial"} && (status == "success" <==> result.errors == [])
  {
    if result.errors == [] then "success" else "partial"
  }

  datatype Outcome = Refused | Finished(result: Result)

  class Service {
    const config: Config
    const digest: Plan -> string
    const system: System
    const tickets: TicketTable

    constructor (config: Config, digest: Plan -> string, system: System, tickets: TicketTable)
      ensures this.config == config && this.digest == digest && this.system == system && this.tickets == tickets
    {
      this.config, this.digest, this.system, this.tickets := config, digest, system, tickets;
    }

    // ----- planning -------------------------------------------------------------------------------

    /** The references a plan is made from: the target's index in the inventory, and Docker's lists. */
    method ReadReferences(key: string)
      returns (ok: bool, files: seq<RemovalFile>, target: nat, resources: Docker.Resources, images: seq<Image>,
               ghost answers: seq<Event>)
      requires system.Steady()
      modifies system`trace, system`moments, system.shared
      ensures system.Steady()
      ensures system.trace == old(system.trace) + answers && AllReads(answers)
      ensures !ok ==> FailedRead(answers) || NoTarget(answers, key, config)
      ensures ok ==> answers == [ReadInventory(Some(files)), ReadResources(Some(resources)), ReadImages(Some(images))]
      ensures ok ==> Acceptable(files, target, key, config)
    {
      hide System.Steady, ExcludedFromProjects, OnlyFileOf, NoTarget;
      ok, files, target, resources, images := false, [], 0, Docker.Resources([], [], []), [];
      var inventory := system.Inventory();
      answers := [ReadInventory(inventory)];
      if inventory.None? {
        assert answers[0] == ReadInventory(None);
        return;
      }
      files := inventory.value;
      var found := FindTarget(files, key);
      if found.None? {
        NobodyAcceptable(answers, files, found, key);
        return;
      }
      target := found.value;
      KeyAt(files, key, target);
      if ExcludedFromProjects(config.roots, files[target].file) {
        NobodyAcceptable(answers, files, found, key);
        return;
      }
      var read := system.Resources();
      answers := answers + [ReadResources(read)];
      if read.None? {
        assert answers[1] == ReadResources(None);
        return;
      }
      resources := read.value;
      var listed := system.Images();
      answers := answers + [ReadImages(listed)];
      if listed.None? {
        assert answers[2] == ReadImages(None);
        return;
      }
      ok, images := true, listed.value;
    }

    lemma KeyAt(files: seq<RemovalFile>, key: string, k: nat)
      requires OnlyFileOf(files, key, k)
      ensures k < |files| && files[k].key == key
    {
    }

    lemma NobodyAcceptable(answers: seq<Event>, files: seq<RemovalFile>, found: Option<nat>, key: string)
      requires |answers| >= 1 && answers[0] == ReadInventory(Some(files))
      requires found.None? ==> forall k :: !OnlyFileOf(files, key, k)
      requires found.Some? ==>
                   OnlyFileOf(files, key, found.value) && ExcludedFromProjects(config.roots, files[found.value].file)
      ensures NoTarget(answers, key, config)
    {
    }

    method PlanRemoval(key: string) returns (plan: Option<Plan>, ghost answers: seq<Event>, ghost snap: Snapshot)
      requires system.Steady()
      modifies system`trace, system`moments, system.shared
      ensures system.Steady()
      ensures system.trace == old(system.trace) + answers && AllReads(answers)
      ensures plan.Some? ==> PlannedFrom(answers, plan.value, snap, key, config)
      ensures plan.None? <==> RefusalShown(answers, key, config)
    {
      hide System.Steady;
      hide FailedRead, NoTarget, MixedUp, ForeignContainers, PlannedFrom, IsPlan, OnlyFileOf, ExcludedFromProjects;
      plan, answers := None, [];
      snap := Snapshot([], Docker.Resources([], [], []), [], RemovalPlan.Probe(None, None, None), []);
      if config.demo || !ValidKey(key) {
        return;
      }
      var ok, files, k, resources, images;
      ok, files, k, resources, images, answers := ReadReferences(key);
      if !ok {
        return;
      }
      ghost var looked;
      plan, looked, snap := PlanTarget(key, files, k, resources, images);
      ghost var references := answers;
      answers := references + looked;
      if plan.Some? {
        PlannedJoin(references, looked, plan.value, snap, key);
        NoRefusal(references, looked, key, files, k, resources, images);
      } else {
        assert answers == references;
        ShownMixedUp(answers, key, files, k, resources, images);
      }
    }

    lemma ShownMixedUp(answers: seq<Event>, key: string, files: seq<RemovalFile>, k: nat, resources: Docker.Resources,
                       images: seq<Image>)
      requires answers == [ReadInventory(Some(files)), ReadResources(Some(resources)), ReadImages(Some(images))]
      requires Acceptable(files, k, key, config) && ForeignContainers(files[k], resources, config)
      ensures RefusalShown(answers, key, config)
    {
      assert Acceptable(answers[0].files.value, k, key, config);
    }

    /** The look at this directory, whose contents are read only when nothing else blocks. */
    ghost predicate LookedAt(looked: seq<Event>, snap: Snapshot, directory: Path, blocked: string) {
      || looked == [ReadProbe(directory, snap.probe), ReadTree(directory, snap.tree)]
      || (looked == [ReadProbe(directory, snap.probe)] && blocked != "")
    }

    lemma PlannedJoin(references: seq<Event>, looked: seq<Event>, plan: Plan, snap: Snapshot, key: string)
      requires references ==
                   [ReadInventory(Some(snap.files)), ReadResources(Some(snap.resources)), ReadImages(Some(snap.images))]
      requires IsPlan(plan, snap, key, config) && LookedAt(looked, snap, plan.directory, plan.blocked)
      ensures PlannedFrom(references + looked, plan, snap, key, config) && AllReads(references + looked)
    {
      var directory := plan.directory;
      var answers := references + looked;
      assert answers == PlanReads(snap, directory, true) || answers == PlanReads(snap, directory, false);
    }

    method PlanTarget(key: string, files: seq<RemovalFile>, k: nat, resources: Docker.Resources, images: seq<Image>)
      returns (plan: Option<Plan>, ghost looked: seq<Event>, ghost snap: Snapshot)
      requires OnlyFileOf(files, key, k)
      requires system.Steady()
      modifies system`trace, system`moments, system.shared
      ensures system.Steady()
      ensures system.trace == old(system.trace) + looked
      ensures plan.None? <==> ForeignContainers(files[k], resources, config)
      ensures plan.None? ==> looked == []
      ensures plan.Some? ==>
                  IsPlan(plan.value, snap, key, config)
                    && LookedAt(looked, snap, files[k].workingDir, plan.value.blocked)
      ensures plan.Some? ==> snap.files == files && snap.resources == resources && snap.images == images
      ensures plan.Some? ==> plan.value.directory == files[k].workingDir
    {
      hide System.Steady;
      var target := files[k];
      var mapper := NewRemovalPathMapper(resources.containers, config.hostname);
      var hostDirectory, hostFile := Host(mapper.mounts, target.workingDir), Host(mapper.mounts, target.file);
      var belong, containers, lines :=
        OwnContainers(resources.containers, key, config.hostname, mapper.mounts, hostDirectory, hostFile);
      if !belong {
        plan, looked := None, [];
        snap := Snapshot([], Docker.Resources([], [], []), [], RemovalPlan.Probe(None, None, None), []);
        return;
      }
      var view, blocked;
      view, blocked, looked := Inspect(files, resources, images, target, mapper, hostDirectory);
      snap := view;
      plan := Assemble(view, target, mapper, hostDirectory, hostFile, blocked, containers, lines);
    }

    lemma NoRefusal(references: seq<Event>, looked: seq<Event>, key: string, files: seq<RemovalFile>, k: nat,
                    resources: Docker.Resources, images: seq<Image>)
      requires !config.demo && ValidKey(key)
      requires references == [ReadInventory(Some(files)), ReadResources(Some(resources)), ReadImages(Some(images))]
      requires forall i :: 0 <= i < |looked| ==> looked[i].ReadProbe? || looked[i].ReadTree?
      requires Acceptable(files, k, key, config) && !ForeignContainers(files[k], resources, config)
      ensures !RefusalShown(references + looked, key, config)
    {
      var answers := references + looked;
      assert answers[0] == references[0] && answers[1] == references[1] && answers[2] == references[2];
      AllAnswered(answers, files, resources, images);
      RightTarget(answers, key, files, k, resources);
      hide FailedRead, NoTarget, MixedUp, Acceptable, ForeignContainers, ValidKey;
    }

    lemma AllAnswered(answers: seq<Event>, files: seq<RemovalFile>, resources: Docker.Resources, images: seq<Image>)
      requires |answers| >= 3 && answers[0] == ReadInventory(Some(files))
      requires answers[1] == ReadResources(Some(resources)) && answers[2] == ReadImages(Some(images))
      requires forall i :: 3 <= i < |answers| ==> answers[i].ReadProbe? || answers[i].ReadTree?
      ensures !FailedRead(answers)
    {
    }

    lemma RightTarget(answers: seq<Event>, key: string, files: seq<RemovalFile>, k: nat, resources: Docker.Resources)
      requires |answers| >= 2 && answers[0] == ReadInventory(Some(files))
      requires answers[1] == ReadResources(Some(resources))
      requires Acceptable(files, k, key, config) && !ForeignContainers(files[k], resources, config)
      ensures !NoTarget(answers, key, config) && !MixedUp(answers, key, config)
    {
      hide ForeignContainers;
      assert Acceptable(answers[0].files.value, k, key, config);
      assert forall l: nat :: Acceptable(files, l, key, config) ==> l == k;
    }

    /** The look at the directory; its contents are read only when nothing else blocks. */
    method Inspect(files: seq<RemovalFile>, resources: Docker.Resources, images: seq<Image>, target: RemovalFile,
                   mapper: Mapper, hostDirectory: Path)
      returns (view: Snapshot, blocked: string, ghost looked: seq<Event>)
      requires system.Steady()
      modifies system`trace, system`moments, system.shared
      ensures system.Steady()
      ensures system.trace == old(system.trace) + looked
      ensures view.files == files && view.resources == resources && view.images == images
      ensures blocked == DirectoryBlock(view, target, config, mapper, hostDirectory)
      ensures LookedAt(looked, view, target.workingDir, blocked)
    {
      hide System.Steady;
      var probe := system.Probe(target.workingDir);
      view := Snapshot(files, resources, images, probe, []);
      looked := [ReadProbe(target.workingDir, probe)];
      blocked := CheckOwnership(view, target, config, mapper, hostDirectory);
      if blocked == "" {
        var tree := system.Tree(target.workingDir);
        view := view.(tree := tree);
        looked := looked + [ReadTree(target.workingDir, tree)];
        blocked := CheckTree(tree);
      }
    }

    /** The items and retained lines, put in order. */
    method Assemble(view: Snapshot, target: RemovalFile, mapper: Mapper, hostDirectory: Path, hostFile: Path,
                    blocked: string,
                    containers: seq<Item>, containerLines: seq<string>) returns (plan: Option<Plan>)
      requires mapper == MapperOf(view.resources.containers, config.hostname)
      requires hostDirectory == Host(mapper.mounts, target.workingDir) && hostFile == Host(mapper.mounts, target.file)
      requires AllBelong(view.resources.containers, target.key, config.hostname, mapper.mounts, hostDirectory, hostFile)
      requires blocked == DirectoryBlock(view, target, config, mapper, hostDirectory)
      requires containers == ContainerItems(view.resources.containers, target.key)
      requires containerLines == ContainerLines(view.resources.containers, target.key, hostDirectory)
      ensures plan.Some? && IsPlanFor(plan.value, view, target, config) && plan.value.blocked == blocked
      ensures plan.value.directory == target.workingDir
    {
      var images := BuildImageItems(view, target);
      var volumes, volumeLines := BuildVolumes(view, target);
      var networkLines := BuildNetworkLines(view.resources.networks, target.key);
      OrdersAreOrders();
      var items := SortBy(containers + images + volumes, ItemOrder());
      var retained := SortBy(containerLines + volumeLines + networkLines, TextOrder());
      plan := Some(Plan(target.key, target.name, target.file, target.workingDir, hostDirectory, hostFile,
                        blocked, items, retained, target.sha));
    }

    // ----- preview ------------------------------------------------------------------------------------

    /** A preview only reads, while no deletion holds the gate, and leaves a ticket for exactly the plan it
        shows. */
    method PreviewProjectRemoval(key: string, randomToken: Option<string>, clock: nat -> int)
      returns (preview: Option<(Plan, string)>, ghost call: Call)
      requires forall i: nat, j: nat :: i <= j ==> clock(i) <= clock(j)
      requires system.Resting()
      modifies system, system.shared, tickets
      ensures system.Resting() && old(system.shared.history) <= system.shared.history
      ensures old(system.moments) <= system.moments
      ensures call.Previewed? && call.key == key && call.randomToken == randomToken && call.preview == preview
      ensures system.trace == old(system.trace) + call.answers && AllReads(call.answers)
      ensures NobodyEverDeletes(system.shared.history, system.moments, |old(system.moments)|)
      ensures PreviewStep(old(tickets.tickets), call, tickets.tickets, digest, config)
    {
      hide Gate.Run, PreviewStep, AllReads, NobodyEverDeletes, System.Steady, System.StandsAs;
      var shared, d := system.shared, system.thread;
      shared.Arrive(d, Gate.Operation(false));
      shared.ReadLock(d);
      system.Settle();
      ghost var answers, start, stop;
      preview, answers, start, stop := ShowPlan(key, randomToken, clock);
      call := Previewed(key, randomToken, answers, preview, start, stop);
      system.LeaveReading();
    }

    /** What a preview does inside the gate. */
    method ShowPlan(key: string, randomToken: Option<string>, clock: nat -> int)
      returns (preview: Option<(Plan, string)>, ghost answers: seq<Event>, ghost start: int, ghost stop: int)
      requires forall i: nat, j: nat :: i <= j ==> clock(i) <= clock(j)
      requires system.Steady()
      modifies system`trace, system`moments, system.shared, tickets
      ensures system.Steady()
      ensures system.trace == old(system.trace) + answers && AllReads(answers)
      ensures PreviewStep(old(tickets.tickets), Previewed(key, randomToken, answers, preview, start, stop),
                          tickets.tickets, digest, config)
    {
      hide System.Steady, PlannedFrom, RefusalShown, Step;
      preview, start, stop := None, 0, 0;
      var plan;
      ghost var snap;
      plan, answers, snap := PlanRemoval(key);
      if plan.None? || randomToken.None? {
        return;
      }
      var accepted;
      accepted, start, stop := tickets.Issue(randomToken.value, key, digest(plan.value), clock);
      if accepted {
        preview := Some((plan.value, randomToken.value));
      }
    }

    // ----- confirmation ----------------------------------------------------------------------------------

    /** Consumes the ticket and decides; the ticket is gone whatever is decided. */
    method Admit(key: string, request: Request)
      returns (plan: Option<Plan>, ghost now: int, ghost answers: seq<Event>, ghost snap: Snapshot)
      requires system.Steady()
      modifies system`trace, system`moments, system`time, system.shared, tickets
      ensures system.Steady()
      ensures system.trace == old(system.trace) + [ReadClock(now)] + answers && AllReads(answers)
      ensures Step(old(tickets.tickets), Attempt(old(tickets.tickets), request.token, key, now), tickets.tickets)
      ensures plan.Some? ==> PlannedFrom(answers, plan.value, snap, key, config)
      ensures plan.Some? ==> Admits(old(tickets.tickets), request, key, now, plan.value, digest)
      ensures plan.None? ==> Rejects(old(tickets.tickets), request, key, now, answers, digest, config)
    {
      hide System.Steady, PlannedFrom, RefusalShown;
      plan, answers := None, [];
      snap := Snapshot([], Docker.Resources([], [], []), [], RemovalPlan.Probe(None, None, None), []);
      var clock := system.Now();
      now := clock;
      var found, accepted := tickets.Redeem(request.token, key, clock);
      if !accepted {
        return;
      }
      var made;
      made, answers, snap := PlanRemoval(key);
      if made.None? {
        return;
      }
      if found.value.fingerprint != digest(made.value) || request.name != made.value.name
         || (request.directory && made.value.blocked != "") {
        assert !Admits(old(tickets.tickets), request, key, now, made.value, digest);
        return;
      }
      plan := made;
    }

    // ----- execution ---------------------------------------------------------------------------------------

    method BackUp(plan: Plan, request: Request) returns (ok: bool, ghost did: seq<Event>)
      requires system.Steady()
      modifies system`trace, system`moments, system.shared
      ensures system.Steady()
      ensures system.trace == old(system.trace) + did
      ensures BackupSteps(did, ok, plan, request)
    {
      hide System.Steady;
      var data;
      ok, data := system.ReadFile(plan.file);
      did := [ReadSource(plan.file, data, ok)];
      if ok {
        ok := system.Act(WriteBackup(request.token, BaseName(plan.file), data, true));
        did := did + [WriteBackup(request.token, BaseName(plan.file), data, ok)];
      }
    }

    method RemoveContainer(item: Item) returns (ok: bool, ghost did: seq<Event>)
      requires item.kind == "container"
      requires system.Steady()
      modifies system`trace, system`moments, system.shared
      ensures system.Steady()
      ensures system.trace == old(system.trace) + did
      ensures ok ==> did == ContainerSteps(item)
      ensures !ok ==> CutShort(ContainerSteps(item), did)
    {
      hide System.Steady;
      ok, did := true, [];
      ghost var full := ContainerSteps(item);
      if Active(item.state) {
        ok := system.Act(StopContainer(item.id, true));
        did := [StopContainer(item.id, ok)];
        if !ok {
          assert did == full[..0] + [AsFailed(full[0])];
          return;
        }
      }
      ok := system.Act(Remove("container", item.id, true));
      ghost var before := did;
      did := did + [Remove("container", item.id, ok)];
      if !ok {
        assert did == full[..|before|] + [AsFailed(full[|before|])];
      }
    }

    method RemoveContainers(items: seq<Item>) returns (ok: bool, deleted: seq<string>, ghost did: seq<Event>)
      requires system.Steady()
      modifies system`trace, system`moments, system.shared
      ensures system.Steady()
      ensures system.trace == old(system.trace) + did
      ensures ok ==> did == AllContainerSteps(items) && deleted == ContainerLabels(items)
      ensures !ok ==> CutShort(AllContainerSteps(items), did) && StoppedAmong(items, did, deleted)
    {
      hide System.Steady, CutShort, ContainerSteps, AllContainerSteps, ContainerLabels;
      StepsNext([], 0);
      ok, deleted, did := true, [], [];
      for n := 0 to |items|
        invariant system.Steady()
        invariant system.trace == old(system.trace) + did
        invariant ok && did == AllContainerSteps(items[..n]) && deleted == ContainerLabels(items[..n])
      {
        StepsNext(items, n);
        if items[n].kind == "container" {
          ghost var before, steps := did, [];
          ok, steps := RemoveContainer(items[n]);
          did := before + steps;
          if !ok {
            ContainerStays(items, n, before, steps);
            assert StoppedAt(items, n, did, steps);
            return;
          }
          deleted := deleted + ["container: " + items[n].name];
        }
      }
      assert items[..|items|] == items;
    }

    method Recheck(item: Item) returns (ok: bool, ghost did: seq<Event>)
      requires item.kind == "image" || item.kind == "volume"
      requires system.Steady()
      modifies system`trace, system`moments, system.shared
      ensures system.Steady()
      ensures system.trace == old(system.trace) + did && AllReads(did)
      ensures ok <==> Rechecked(did, item)
    {
      hide System.Steady, MayName, MountsVolume;
      ok := false;
      var resources := system.Resources();
      did := [ReadResources(resources)];
      if resources.None? {
        return;
      }
      var files := system.Inventory();
      did := did + [ReadInventory(files)];
      if files.None? {
        return;
      }
      if item.kind == "image" {
        var cs := resources.value.containers;
        var inUse := exists i | 0 <= i < |cs| :: cs[i].imageId == item.id;
        if inUse {
          return;
        }
        var images := system.Images();
        did := did + [ReadImages(images)];
        if images.None? {
          return;
        }
        var needed := NeedsImage(images.value, files.value, item.id);
        ok := !needed;
      } else {
        var cs := resources.value.containers;
        var mounted := exists i | 0 <= i < |cs| :: MountsVolume(cs[i], item.id);
        MountedMeans(cs, item.id);
        if mounted {
          return;
        }
        var needed := NeedsVolume(files.value, item.id);
        ok := !needed;
      }
    }

    lemma MountedMeans(cs: seq<Container>, name: string)
      ensures (exists i :: 0 <= i < |cs| && MountsVolume(cs[i], name)) <==>
              exists c, m :: c in cs && m in c.mounts && m.name == name
    {
      if i :| 0 <= i < |cs| && MountsVolume(cs[i], name) {
        var j :| 0 <= j < |cs[i].mounts| && cs[i].mounts[j].name == name;
        assert cs[i] in cs && cs[i].mounts[j] in cs[i].mounts;
      }
      if c, m :| c in cs && m in c.mounts && m.name == name {
        var i :| 0 <= i < |cs| && cs[i] == c;
        assert MountsVolume(cs[i], name);
      }
    }

    method NeedsImage(images: seq<Image>, files: seq<RemovalFile>, id: string) returns (needed: bool)
      ensures !needed <==> forall image :: image in images && image.id == id ==>
                             forall file :: file in files ==> !file.uncertain && !MayName(file, image)
    {
      hide FileUsesImage, MayName;
      for n := 0 to |images|
        invariant forall i :: 0 <= i < n && images[i].id == id ==>
                    forall file :: file in files ==> !file.uncertain && !MayName(file, images[i])
      {
        if images[n].id == id {
          for m := 0 to |files|
            invariant forall j :: 0 <= j < m ==> !files[j].uncertain && !MayName(files[j], images[n])
          {
            UsesMeans(files[m], images[n]);
            if files[m].uncertain || FileUsesImage(files[m], images[n]) {
              assert images[n] in images && files[m] in files;
              return true;
            }
          }
        }
      }
      needed := false;
    }

    method NeedsVolume(files: seq<RemovalFile>, name: string) returns (needed: bool)
      ensures !needed <==> forall file :: file in files ==> !file.uncertain && name !in file.volumes
    {
      for m := 0 to |files|
        invariant forall j :: 0 <= j < m ==> !files[j].uncertain && name !in files[j].volumes
      {
        if files[m].uncertain || FileUsesVolume(files[m], name) {
          assert files[m] in files;
          return true;
        }
      }
      needed := false;
    }

    /** One image or volume: kept, removed or reported, as its steps went. */
    method HandleResource(item: Item, request: Request)
      returns (deleted: seq<string>, retained: seq<string>, errors: seq<string>, ghost steps: seq<Event>)
      requires item.kind != "container"
      requires system.Steady()
      modifies system`trace, system`moments, system.shared
      ensures system.Steady()
      ensures system.trace == old(system.trace) + steps
      ensures ResourceSteps(steps, item, request)
      ensures deleted == DeletedBy(steps, item) && errors == ErrorOf(steps, item)
      ensures retained == RetainedBy(steps, item, request)
    {
      hide System.Steady, Rechecked;
      deleted, retained, errors, steps := [], [], [], [];
      if !Selected(item, request) || item.reason != "" {
        retained := [item.name + ": " + if item.reason == "" then "not selected" else item.reason];
        return;
      }
      var ok;
      ok, steps := Recheck(item);
      if !ok {
        assert !EndsRemoving(steps);
        retained := [item.name + ": " + "still needed"];
        return;
      }
      ghost var answers := steps;
      ok := system.Act(Remove(item.kind, item.id, true));
      steps := steps + [Remove(item.kind, item.id, ok)];
      assert steps[..|steps| - 1] == answers && !IsRead(steps[|answers|]);
      if ok {
        deleted := [item.kind + ": " + item.name];
      } else {
        errors := ["not removed: " + item.name];
      }
    }

    method RemoveResources(items: seq<Item>, request: Request) returns (result: Result, ghost did: seq<seq<Event>>)
      requires system.Steady()
      modifies system`trace, system`moments, system.shared
      ensures system.Steady()
      ensures system.trace == old(system.trace) + Flatten(did)
      ensures |did| == |items| && forall k :: 0 <= k < |did| ==> ResourceSteps(did[k], items[k], request)
      ensures result == Result(AllDeleted(did, items), AllRetained(did, items, request), AllErrors(did, items))
    {
      hide System.Steady;
      hide ResourceSteps, Flatten, DeletedBy, RetainedBy, ErrorOf, AllDeleted, AllRetained, AllErrors, Selected;
      result := Result([], [], []);
      did := [];
      NoTotals(request);
      FlattenOneMore([], []);
      for n := 0 to |items|
        invariant system.Steady()
        invariant system.trace == old(system.trace) + Flatten(did)
        invariant |did| == n && forall k :: 0 <= k < n ==> ResourceSteps(did[k], items[k], request)
        invariant result ==
                      Result(AllDeleted(did, items[..n]), AllRetained(did, items[..n], request),
                             AllErrors(did, items[..n]))
      {
        assert items[..n + 1] == items[..n] + [items[n]];
        ghost var steps: seq<Event> := [];
        if items[n].kind != "container" {
          var deleted, retained, errors;
          deleted, retained, errors, steps := HandleResource(items[n], request);
          result := Result(result.deleted + deleted, result.retained + retained, result.errors + errors);
        } else {
          ContainerIsLeft(items[n], request);
        }
        FlattenOneMore(did, steps);
        TotalsOneMore(did, items[..n], steps, items[n], request);
        did := did + [steps];
      }
      assert items[..|items|] == items;
    }

    /** The second planning, after the containers are gone. */
    method LookAgain(plan: Plan, key: string, request: Request)
      returns (ok: bool, ghost answers: seq<Event>, ghost second: Plan, ghost snap: Snapshot)
      requires system.Steady()
      modifies system`trace, system`moments, system.shared
      ensures system.Steady()
      ensures system.trace == old(system.trace) + answers && AllReads(answers)
      ensures ok ==> PlannedFrom(answers, second, snap, key, config) && Confirms(second, plan, request)
      ensures !ok ==> RefusalShown(answers, key, config) ||
                      (PlannedFrom(answers, second, snap, key, config) && !Confirms(second, plan, request))
    {
      hide System.Steady, PlannedFrom, RefusalShown;
      var again;
      again, answers, snap := PlanRemoval(key);
      second := plan;
      ok := false;
      if again.None? {
        return;
      }
      second := again.value;
      if again.value.configSha != plan.configSha || again.value.file != plan.file
        || again.value.directory != plan.directory {
        return;
      }
      if exists i | 0 <= i < |again.value.items| :: again.value.items[i].kind == "container" {
        return;
      }
      ok := !request.directory || again.value.blocked == "";
    }

    method RemoveTarget(plan: Plan, request: Request) returns (ok: bool, ghost did: seq<Event>)
      requires system.Steady()
      modifies system`trace, system`moments, system.shared
      ensures system.Steady()
      ensures system.trace == old(system.trace) + did
      ensures TargetSteps(did, ok, plan, request, config)
    {
      hide System.Steady;
      ok := false;
      if request.directory {
        var probe := system.Probe(plan.directory);
        did := [ReadProbe(plan.directory, probe)];
        if RemovalDirectory(config.roots, plan.directory, probe) == "" {
          ok := system.Act(RemoveDirectory(Clean(plan.directory), true));
          did := did + [RemoveDirectory(Clean(plan.directory), ok)];
        }
      } else {
        var path := system.ResolveComposeFile(plan.file);
        did := [ResolveFile(plan.file, path)];
        if path == Some(plan.file) {
          ok := system.Act(RemoveFile(plan.file, true));
          did := did + [RemoveFile(plan.file, ok)];
        }
      }
    }

    /** The file or the directory, then the resources one by one; `run0` comes from the second planning. */
    method FinishTarget(plan: Plan, request: Request, result0: Result, ghost run0: Run)
      returns (result: Result, ghost run: Run)
      requires result0 == Result(ContainerLabels(plan.items), plan.retained, []) && run0.plan == plan
      requires run0.resources == []
      requires system.Steady()
      modifies system`trace, system`moments, system.shared
      ensures system.Steady()
      ensures 5 <= run.stage <= 6 && run == run0.(stage := run.stage, target := run.target, resources := run.resources)
      ensures system.trace == old(system.trace) + (run.target + Flatten(run.resources))
      ensures LawfulTarget(run, request, config) && LawfulResources(run, request)
      ensures Accounts(result, run, request)
    {
      hide System.Steady, ResourceSteps, ContainerLabels, TargetSteps, AllDeleted, AllRetained, AllErrors, Flatten;
      FlattenOneMore([], []);
      result := result0;
      var ok;
      ghost var did;
      ok, did := RemoveTarget(plan, request);
      run := run0.(stage := if ok then 6 else 5, target := did);
      if !ok {
        result := result.(errors := ["file not removed"]);
        return;
      }
      if request.directory {
        result := result.(deleted := result.deleted + ["directory: " + Render(plan.directory)]);
      } else {
        result := result.(deleted := result.deleted + ["file: " + Render(plan.file)],
                          retained := result.retained + ["directory: " + Render(plan.directory)]);
      }
      var rest;
      ghost var parts;
      rest, parts := RemoveResources(plan.items, request);
      run := run.(resources := parts);
      result := Result(result.deleted + rest.deleted, result.retained + rest.retained, rest.errors);
    }

    /** Everything after the removal of the containers: a second planning, and the rest if it confirms. */
    method Finish(plan: Plan, key: string, request: Request, result0: Result) returns (result: Result, ghost run: Run)
      requires result0 == Result(ContainerLabels(plan.items), plan.retained, [])
      requires system.Steady()
      modifies system`trace, system`moments, system.shared
      ensures system.Steady()
      ensures run.plan == plan && 4 <= run.stage <= 6
      ensures system.trace == old(system.trace) + (run.replan + run.target + Flatten(run.resources))
      ensures LawfulReplan(run, key, request, config) && LawfulTarget(run, request, config)
      ensures LawfulResources(run, request)
      ensures Accounts(result, run, request)
    {
      hide System.Steady;
      hide PlannedFrom, RefusalShown, Confirms, ResourceSteps, ContainerLabels, TargetSteps, AllDeleted, AllRetained;
      hide AllErrors, Flatten;
      FlattenOneMore([], []);
      result := result0;
      ghost var nothing := Snapshot([], Docker.Resources([], [], []), [], RemovalPlan.Probe(None, None, None), []);
      run := Run(4, [], [], [], [], [], [], [], [], plan, nothing, plan, nothing);
      var ok;
      ghost var did, second, snap;
      ok, did, second, snap := LookAgain(plan, key, request);
      run := run.(replan := did, second := second, secondSnap := snap);
      if !ok {
        result := result.(errors := ["the project changed"]);
        return;
      }
      result, run := FinishTarget(plan, request, result, run);
    }

    /** The parts of a run between the audit records. */
    ghost predicate LawfulWork(run: Run, key: string, request: Request) {
      && 2 <= run.stage <= 6
      && LawfulBackup(run, request) && LawfulContainers(run) && LawfulReplan(run, key, request, config)
      && LawfulTarget(run, request, config) && LawfulResources(run, request)
    }

    ghost predicate Untouched(run: Run) {
      run.replan == [] && run.target == [] && run.resources == []
    }

    lemma StoppedEarly(run: Run, key: string, request: Request)
      requires run.stage == 2 || run.stage == 3
      requires LawfulBackup(run, request) && LawfulContainers(run) && Untouched(run)
      ensures LawfulWork(run, key, request) && Work(run) == run.backup + run.containers
    {
    }

    lemma Completed(run: Run, backup: seq<Event>, containers: seq<Event>, key: string, request: Request)
      returns (full: Run)
      requires 4 <= run.stage <= 6
      requires BackupSteps(backup, true, run.plan, request) && containers == AllContainerSteps(run.plan.items)
      requires LawfulReplan(run, key, request, config) && LawfulTarget(run, request, config)
      requires LawfulResources(run, request)
      ensures full == run.(backup := backup, containers := containers) && LawfulWork(full, key, request)
      ensures Work(full) == backup + containers + (run.replan + run.target + Flatten(run.resources))
    {
      hide PlannedFrom, RefusalShown, Confirms, TargetSteps, BackupSteps, ResourceSteps, AllContainerSteps, CutShort;
      full := run.(backup := backup, containers := containers);
    }

    /** Everything after the audit record; the returned run lacks only its opening and its closing. */
    method Execute(plan: Plan, key: string, request: Request) returns (result: Result, ghost run: Run)
      requires system.Steady()
      modifies system`trace, system`moments, system.shared
      ensures system.Steady()
      ensures run.plan == plan && 2 <= run.stage <= 6 && LawfulWork(run, key, request)
      ensures system.trace == old(system.trace) + Work(run)
      ensures Accounts(result, run, request)
    {
      hide System.Steady;
      hide LawfulWork, Work, CutShort, AllContainerSteps, LawfulReplan, LawfulTarget, LawfulResources, BackupSteps;
      hide StoppedAmong;
      result := Result([], [], []);
      ghost var nothing := Snapshot([], Docker.Resources([], [], []), [], RemovalPlan.Probe(None, None, None), []);
      ghost var backup, containers;
      var ok, deleted;
      ok, backup := BackUp(plan, request);
      if !ok {
        result := result.(errors := ["no backup"]);
        run := Run(2, [], [], backup, [], [], [], [], [], plan, nothing, plan, nothing);
        StoppedEarly(run, key, request);
        return;
      }
      ok, deleted, containers := RemoveContainers(plan.items);
      result := Result(deleted, plan.retained, []);
      if !ok {
        result := result.(errors := ["container not removed"]);
        run := Run(3, [], [], backup, containers, [], [], [], [], plan, nothing, plan, nothing);
        StoppedEarly(run, key, request);
        return;
      }
      result, run := Finish(plan, key, request, result);
      run := Completed(run, backup, containers, key, request);
    }

    lemma Assembled(admission: seq<Event>, started: Event, work: Run, close: Event, snap: Snapshot, key: string,
                    request: Request)
      returns (run: Run)
      requires Opened(admission, work.plan, snap, key, request) && started == Audit("started", true)
      requires close.Audit? && close.status != "started" && LawfulWork(work, key, request)
      ensures run.plan == work.plan && run.stage == work.stage && run.admission == admission
      ensures run.containers == work.containers && run.resources == work.resources
      ensures run.closing == [close]
      ensures Lawful(run, key, request, config) && Events(run) == admission + ([started] + Work(work) + [close])
    {
      run := work.(admission := admission, audit := [started], closing := [close], snap := snap);
      SameWork(work, run, key, request);
    }

    lemma SameWork(work: Run, run: Run, key: string, request: Request)
      requires LawfulWork(work, key, request)
      requires run == work.(admission := run.admission, audit := run.audit, closing := run.closing, snap := run.snap)
      ensures LawfulWork(run, key, request) && Work(run) == Work(work)
    {
    }

    /** The admission of a run that goes ahead. */
    ghost predicate Opened(admission: seq<Event>, plan: Plan, snap: Snapshot, key: string, request: Request) {
      && AllReads(admission)
      && admission != [] && admission[0].ReadClock? && PlannedFrom(admission[1..], plan, snap, key, config)
      && plan.name == request.name && (request.directory ==> plan.blocked == "")
    }

    lemma Opens(plan: Plan, now: int, answers: seq<Event>, snap: Snapshot, key: string, request: Request, table: Table)
      requires AllReads(answers) && PlannedFrom(answers, plan, snap, key, config)
      requires Admits(table, request, key, now, plan, digest)
      ensures Opened([ReadClock(now)] + answers, plan, snap, key, request)
    {
      assert ([ReadClock(now)] + answers)[1..] == answers;
    }

    lemma NotAudited(admission: seq<Event>, plan: Plan, snap: Snapshot, key: string, request: Request)
      returns (run: Run)
      requires Opened(admission, plan, snap, key, request)
      ensures run.plan == plan && run.stage == 1 && run.admission == admission
      ensures Lawful(run, key, request, config) && Events(run) == admission + [Audit("started", false)]
    {
      hide PlannedFrom;
      run := Run(1, admission, [Audit("started", false)], [], [], [], [], [], [], plan, snap, plan, snap);
      assert Work(run) == [];
    }

    lemma NotAdmitted(admission: seq<Event>, key: string, request: Request) returns (run: Run)
      requires AllReads(admission)
      ensures run.stage == 0 && run.admission == admission
      ensures Lawful(run, key, request, config) && Events(run) == admission
    {
      var nothing := Snapshot([], Docker.Resources([], [], []), [], RemovalPlan.Probe(None, None, None), []);
      var noPlan := Plan(key, "", [], [], [], [], "", [], [], "");
      run := Run(0, admission, [], [], [], [], [], [], [], noPlan, nothing, noPlan, nothing);
      assert Work(run) == [];
    }

    lemma SameAccounts(result: Result, work: Run, run: Run, request: Request)
      requires run.stage == work.stage && run.plan == work.plan
      requires run.containers == work.containers && run.resources == work.resources
      ensures Accounts(result, work, request) ==> Accounts(result, run, request)
    {
      hide AllDeleted, AllRetained, AllErrors, ContainerLabels, StoppedAmong;
    }

    /** What follows an admitted confirmation. */
    method Perform(plan: Plan, key: string, request: Request, ghost admission: seq<Event>, ghost snap: Snapshot)
      returns (outcome: Outcome, ghost run: Run, ghost did: seq<Event>)
      requires Opened(admission, plan, snap, key, request)
      requires system.Steady()
      modifies system`trace, system`moments, system.shared
      ensures system.Steady()
      ensures run.admission == admission && run.plan == plan && run.stage >= 1
      ensures system.trace == old(system.trace) + did && Events(run) == admission + did
      ensures Lawful(run, key, request, config)
      ensures outcome.Refused? <==> run.stage < 2
      ensures outcome.Finished? ==> Accounts(outcome.result, run, request)
      ensures outcome.Finished? ==> exists ok :: run.closing == [Audit(FinalStatus(outcome.result), ok)]
    {
      hide System.Steady;
      hide Opened, Lawful, LawfulWork, Events, Work, Accounts;
      var ok := system.Act(Audit("started", true));
      did := [Audit("started", ok)];
      if !ok {
        outcome := Refused;
        run := NotAudited(admission, plan, snap, key, request);
        return;
      }
      var result;
      ghost var work;
      result, work := Execute(plan, key, request);
      var status := FinalStatus(result);
      ok := system.Act(Audit(status, true));
      did := [Audit("started", true)] + Work(work) + [Audit(status, ok)];
      run := Assembled(admission, Audit("started", true), work, Audit(status, ok), snap, key, request);
      SameAccounts(result, work, run, request);
      outcome := Finished(result);
    }

    /** What follows when the gate is held and no update is active. */
    method Confirm(key: string, request: Request) returns (outcome: Outcome, ghost run: Run)
      requires system.Steady()
      modifies system`trace, system`moments, system`time, system.shared, tickets
      ensures system.Steady()
      ensures system.trace == old(system.trace) + Events(run)
      ensures Lawful(run, key, request, config)
      ensures ConfirmStep(old(tickets.tickets), Confirmed(key, request, true, false, run), tickets.tickets,
                          digest, config)
      ensures outcome.Refused? <==> run.stage < 2
      ensures outcome.Finished? ==> Accounts(outcome.result, run, request)
      ensures outcome.Finished? ==> exists ok :: run.closing == [Audit(FinalStatus(outcome.result), ok)]
    {
      hide System.Steady, Opened, Lawful, Events, Rejects, PlannedFrom, Admits, Accounts, Step, Attempt;
      outcome := Refused;
      var plan;
      ghost var now, answers, snap;
      plan, now, answers, snap := Admit(key, request);
      ghost var admission := [ReadClock(now)] + answers;
      if plan.None? {
        run := NotAdmitted(admission, key, request);
        return;
      }
      Opens(plan.value, now, answers, snap, key, request, old(tickets.tickets));
      ghost var did;
      outcome, run, did := Perform(plan.value, key, request, admission, snap);
    }

    /** The whole of a deletion that has passed its check, up to leaving the gate. */
    method ConfirmAlone(key: string, request: Request) returns (outcome: Outcome, ghost run: Run)
      requires system.Valid() && system.thread in system.shared.current.threads
      requires system.shared.current.threads[system.thread] == Gate.Deleter(Gate.Passed)
      modifies system, system.shared, tickets
      ensures system.Resting() && old(system.shared.history) <= system.shared.history
      ensures old(system.moments) <= system.moments
      ensures system.trace == old(system.trace) + Events(run)
      ensures AllAlone(system.shared.history, system.moments, |old(system.moments)|, system.thread)
      ensures Lawful(run, key, request, config)
      ensures ConfirmStep(old(tickets.tickets), Confirmed(key, request, true, false, run), tickets.tickets,
                          digest, config)
      ensures outcome.Refused? <==> run.stage < 2
      ensures outcome.Finished? ==> Accounts(outcome.result, run, request)
      ensures outcome.Finished? ==> exists ok :: run.closing == [Audit(FinalStatus(outcome.result), ok)]
    {
      hide Gate.Run, Lawful, Events, ConfirmStep, Accounts, AllAlone, System.Steady, System.StandsAs;
      system.Settle();
      outcome, run := Confirm(key, request);
      system.LeaveAlone();
    }

    lemma KeptOut(call: Call, table: Table)
      requires call.Confirmed? && (!call.gateFree || call.updating ==> call.run.stage == 0 && Events(call.run) == [])
      ensures !call.gateFree || call.updating ==> ConfirmStep(table, call, table, digest, config)
    {
      hide Events;
    }

    lemma NothingYet()
      ensures AllAlone(system.shared.history, system.moments, |system.moments|, system.thread)
    {
    }

    /** A confirmed deletion. It goes on exactly if nobody held the gate when it tried it and no update was
        active when it looked. Everything it reads and does happens while it is alone. Every run is
        lawful; one that touches anything was admitted by a ticket for exactly its plan, one that does not
        was refused for a reason that shows; and the result accounts for what was done. */
    method DeleteProject(key: string, request: Request) returns (outcome: Outcome, ghost call: Call)
      requires system.Resting()
      modifies system, system.shared, tickets
      ensures system.Resting() && old(system.shared.history) <= system.shared.history
      ensures old(system.moments) <= system.moments
      ensures call.Confirmed? && call.key == key && call.request == request
      ensures Answered(system.shared.history, |old(system.shared.history)|, call.gateFree, call.updating)
      ensures system.trace == old(system.trace) + Events(call.run)
      ensures AllAlone(system.shared.history, system.moments, |old(system.moments)|, system.thread)
      ensures Lawful(call.run, key, request, config)
      ensures ConfirmStep(old(tickets.tickets), call, tickets.tickets, digest, config)
      ensures outcome.Refused? <==> call.run.stage < 2
      ensures outcome.Finished? ==> Accounts(outcome.result, call.run, request)
      ensures outcome.Finished? ==> exists ok :: call.run.closing == [Audit(FinalStatus(outcome.result), ok)]
    {
      hide Gate.Run, Lawful, Events, Accounts, AllAlone, Answered, ConfirmStep;
      outcome := Refused;
      var shared, d := system.shared, system.thread;
      shared.Arrive(d, Gate.Deleter(Gate.Trying));
      var free, updating := shared.AskGate(d);
      ghost var asked := shared.history;
      ghost var run := NotAdmitted([], key, request);
      if !free {
        shared.Depart(d);
        NothingYet();
      } else if updating {
        shared.Unlock(d);
        NothingYet();
      } else {
        outcome, run := ConfirmAlone(key, request);
      }
      call := Confirmed(key, request, free, updating, run);
      KeptOut(call, old(tickets.tickets));
      LaterStates(asked, shared.history, |old(shared.history)|, free, updating);
    }
  }

  // ----- the tickets of the service -----------------------------------------------------------------

  /** The ticket was issued for this project and for exactly this plan, it has not expired, and the
      request repeats what the plan says. */
  ghost predicate Admits(table: Table, request: Request, key: string, now: int, plan: Plan, digest: Plan -> string) {
    && request.token in table && Redeemable(Some(table[request.token]), key, now)
    && table[request.token].fingerprint == digest(plan)
    && plan.name == request.name && (request.directory ==> plan.blocked == "")
  }

  ghost predicate Rejects(table: Table, request: Request, key: string, now: int, answers: seq<Event>,
                          digest: Plan -> string, config: Config) {
    || request.token !in table || !Redeemable(Some(table[request.token]), key, now)
    || RefusalShown(answers, key, config)
    || exists plan, snap ::
         PlannedFrom(answers, plan, snap, key, config) && !Admits(table, request, key, now, plan, digest)
  }

  /** The attempt to redeem a token, as the table decides it. */
  ghost function Attempt(table: Table, token: string, key: string, now: int): Op {
    var found := if token in table then Some(table[token]) else None;
    Redeem(token, key, now, found, Redeemable(found, key, now))
  }

  /** One finished call of the service, with what it was given and what came of it. */
  datatype Call =
    | Previewed(key: string, randomToken: Option<string>, answers: seq<Event>, preview: Option<(Plan, string)>,
                start: int, stop: int)
    | Confirmed(key: string, request: Request, gateFree: bool, updating: bool, run: Run)

  /** The attempt of a preview to issue a ticket with this fingerprint. */
  ghost function IssueOf(call: Call, fingerprint: string): Op
    requires call.Previewed? && call.randomToken.Some?
  {
    Issue(call.randomToken.value, call.key, fingerprint, call.start, call.stop, call.preview.Some?)
  }

  /** A preview leaves the table alone, or tries to issue a ticket for the plan it read. */
  ghost predicate PreviewStep(before: Table, call: Call, after: Table, digest: Plan -> string, config: Config)
    requires call.Previewed?
  {
    || (&& call.preview.None? && after == before
        && (call.randomToken.None? || RefusalShown(call.answers, call.key, config)))
    || (&& call.randomToken.Some?
        && exists plan, snap ::
             && PlannedFrom(call.answers, plan, snap, call.key, config)
             && Step(before, IssueOf(call, digest(plan)), after)
             && (call.preview.Some? ==> call.preview.value == (plan, call.randomToken.value)))
  }

  /** A confirmation leaves the table alone while the gate is taken or an update is active; otherwise it
      consumes its ticket, and acts only on a plan the ticket admits. */
  ghost predicate ConfirmStep(before: Table, call: Call, after: Table, digest: Plan -> string, config: Config)
    requires call.Confirmed?
  {
    var run := call.run;
    if !call.gateFree || call.updating then after == before && run.stage == 0 && Events(run) == []
    else
      && run.admission != [] && run.admission[0].ReadClock?
      && var now := run.admission[0].now;
      && Step(before, Attempt(before, call.request.token, call.key, now), after)
      && if run.stage >= 1 then Admits(before, call.request, call.key, now, run.plan, digest)
         else Rejects(before, call.request, call.key, now, run.admission[1..], digest, config)
  }

  ghost predicate CallStep(before: Table, call: Call, after: Table, digest: Plan -> string, config: Config) {
    match call
    case Previewed(_, _, _, _, _, _) => PreviewStep(before, call, after, digest, config)
    case Confirmed(_, _, _, _, _) => ConfirmStep(before, call, after, digest, config)
  }

  /** Any number of calls, in the order in which they reached the table. */
  ghost predicate ServiceRun(tables: seq<Table>, calls: seq<Call>, digest: Plan -> string, config: Config) {
    && |tables| == |calls| + 1 && tables[0] == map[]
    && forall i :: 0 <= i < |calls| ==> CallStep(tables[i], calls[i], tables[i + 1], digest, config)
  }

  /** Random tokens never repeat. */
  ghost predicate NewRandomTokens(calls: seq<Call>) {
    forall i, j :: 0 <= i < j < |calls| && calls[i].Previewed? && calls[j].Previewed? && calls[i].randomToken.Some? ==>
      calls[j].randomToken != calls[i].randomToken
  }

  /** The digest tells plans apart, as a collision-free hash does. */
  ghost predicate TellsApart(digest: Plan -> string) {
    forall p, q :: digest(p) == digest(q) ==> p == q
  }

  /** What a call does to the table. */
  ghost predicate OpOf(table: Table, call: Call, op: Op, digest: Plan -> string) {
    match call
    case Previewed(key, randomToken, _, preview, start, stop) =>
      || (op == Idle && preview.None?)
      || (&& op.Issue? && randomToken == Some(op.token) && op.key == key && op.start == start && op.stop == stop
          && op.accepted == preview.Some?
          && (preview.Some? ==> op.fingerprint == digest(preview.value.0) && preview.value.1 == op.token))
    case Confirmed(key, request, _, _, run) =>
      || (op == Idle && run.stage == 0)
      || (&& run.admission != [] && run.admission[0].ReadClock?
          && op == Attempt(table, request.token, key, run.admission[0].now)
          && (run.stage >= 1 ==> op.accepted && op.found.value.fingerprint == digest(run.plan)))
  }

  lemma CallIsOp(before: Table, call: Call, after: Table, digest: Plan -> string, config: Config) returns (op: Op)
    requires CallStep(before, call, after, digest, config)
    ensures Step(before, op, after) && OpOf(before, call, op, digest)
  {
    hide PlannedFrom, RefusalShown, Purged, Rejects;
    op := Idle;
    if call.Previewed? {
      if plan, snap :|
           && call.randomToken.Some? && PlannedFrom(call.answers, plan, snap, call.key, config)
           && Step(before, IssueOf(call, digest(plan)), after)
           && (call.preview.Some? ==> call.preview.value == (plan, call.randomToken.value))
      {
        op := IssueOf(call, digest(plan));
      }
    } else if call.gateFree && !call.updating {
      op := Attempt(before, call.request.token, call.key, call.run.admission[0].now);
    }
  }

  /** Every run of the service is a run of the table. */
  lemma CallsAreOps(tables: seq<Table>, calls: seq<Call>, digest: Plan -> string, config: Config) returns (ops: seq<Op>)
    requires ServiceRun(tables, calls, digest, config)
    ensures IsRun(tables, ops) && |ops| == |calls|
    ensures forall i :: 0 <= i < |calls| ==> OpOf(tables[i], calls[i], ops[i], digest)
  {
    hide CallStep, Step, OpOf;
    ops := [];
    for n := 0 to |calls|
      invariant |ops| == n
      invariant forall i :: 0 <= i < n ==>
                    Step(tables[i], ops[i], tables[i + 1]) && OpOf(tables[i], calls[i], ops[i], digest)
    {
      var op := CallIsOp(tables[n], calls[n], tables[n + 1], digest, config);
      ops := ops + [op];
    }
  }

  lemma TokensStayNew(tables: seq<Table>, calls: seq<Call>, ops: seq<Op>, digest: Plan -> string)
    requires NewRandomTokens(calls) && |ops| == |calls| <= |tables|
    requires forall i :: 0 <= i < |calls| ==> OpOf(tables[i], calls[i], ops[i], digest)
    ensures NewTokens(ops)
  {
    forall i, j | 0 <= i < j < |ops| && ops[i].Issue? && ops[j].Issue? ensures ops[i].token != ops[j].token {
      assert OpOf(tables[i], calls[i], ops[i], digest) && OpOf(tables[j], calls[j], ops[j], digest);
    }
  }

  /** In every state the service can reach its table holds at most 64 tickets. */
  lemma ServiceTableIsBounded(tables: seq<Table>, calls: seq<Call>, digest: Plan -> string, config: Config, k: nat)
    requires ServiceRun(tables, calls, digest, config) && k < |tables|
    ensures |tables[k]| <= 64
  {
    hide Step, OpOf;
    var ops := CallsAreOps(tables, calls, digest, config);
    TableIsBounded(tables, ops, k);
  }

  lemma AcceptedAttempt(table: Table, call: Call, op: Op, digest: Plan -> string)
    requires OpOf(table, call, op, digest) && call.Confirmed? && call.run.stage >= 1
    ensures op.Redeem? && op.accepted && op.token == call.request.token && op.key == call.key
    ensures call.run.admission != [] && call.run.admission[0].ReadClock? && op.now == call.run.admission[0].now
    ensures op.found.Some? && op.found.value.fingerprint == digest(call.run.plan)
  {
  }

  lemma AcceptedIssue(table: Table, call: Call, op: Op, digest: Plan -> string)
    requires OpOf(table, call, op, digest) && op.Issue? && op.accepted
    ensures call.Previewed? && call.preview.Some? && call.key == op.key && call.stop == op.stop
    ensures call.preview.value.1 == op.token && op.fingerprint == digest(call.preview.value.0)
  {
  }

  /** Over any run of previews and confirmations of the service: a deletion that does anything carries out
      the very plan that an earlier preview of the same project showed together with the token the
      request names, at most ten minutes before; and no other confirmation with that token does anything,
      before or after, whatever became of this one. */
  lemma ConfirmedIsPreviewed(tables: seq<Table>, calls: seq<Call>, digest: Plan -> string, config: Config, k: nat)
    returns (i: nat)
    requires ServiceRun(tables, calls, digest, config) && NewRandomTokens(calls) && TellsApart(digest)
    requires k < |calls| && calls[k].Confirmed? && calls[k].run.stage >= 1
    ensures i < k && calls[i].Previewed? && calls[i].key == calls[k].key
    ensures calls[i].preview == Some((calls[k].run.plan, calls[k].request.token))
    ensures calls[k].run.admission != [] && calls[k].run.admission[0].ReadClock?
    ensures calls[k].run.admission[0].now <= calls[i].stop + 600_000_000_000
    ensures forall j :: 0 <= j < |calls| && j != k && calls[j].Confirmed? &&
                        calls[j].request.token == calls[k].request.token ==>
                          calls[j].run.stage == 0
  {
    hide Step, OpOf, CallStep, IsRun, ServiceRun, NewTokens;
    var ops := CallsAreOps(tables, calls, digest, config);
    TablesAsMany(tables, calls, digest, config);
    TokensStayNew(tables, calls, ops, digest);
    AcceptedAttempt(tables[k], calls[k], ops[k], digest);
    i := RedeemedWasIssued(tables, ops, k);
    AcceptedIssue(tables[i], calls[i], ops[i], digest);
    forall j | 0 <= j < |calls| && j != k && calls[j].Confirmed? && calls[j].request.token == calls[k].request.token
      ensures calls[j].run.stage == 0
    {
      if calls[j].run.stage >= 1 {
        AcceptedAttempt(tables[j], calls[j], ops[j], digest);
        NeverTwice(tables, ops, if j < k then j else k, if j < k then k else j);
      }
    }
  }

  lemma TablesAsMany(tables: seq<Table>, calls: seq<Call>, digest: Plan -> string, config: Config)
    requires ServiceRun(tables, calls, digest, config)
    ensures |tables| == |calls| + 1
  {
  }

  // ----- the account of a run -----------------------------------------------------------------------

  function ContainerLabel(item: Item): seq<string> {
    if item.kind == "container" then ["container: " + item.name] else []
  }

  function ContainerLabels(items: seq<Item>): seq<string> {
    if items == [] then [] else ContainerLabels(items[..|items| - 1]) + ContainerLabel(items[|items| - 1])
  }

  /** All containers before item `n` were removed, and the last steps are those of item `n`, cut short. */
  ghost predicate StoppedAt(items: seq<Item>, n: nat, did: seq<Event>, last: seq<Event>) {
    && n < |items| && CutShort(ContainerSteps(items[n]), last) && did == AllContainerSteps(items[..n]) + last
  }

  /** The labels are those of the containers removed before the steps stopped. */
  ghost predicate StoppedAmong(items: seq<Item>, did: seq<Event>, labels: seq<string>) {
    exists n: nat, last :: StoppedAt(items, n, did, last) && labels == ContainerLabels(items[..n])
  }

  lemma StepsNext(items: seq<Item>, n: nat)
    ensures AllContainerSteps([]) == [] && ContainerLabels([]) == []
    ensures n < |items| ==>
                AllContainerSteps(items[..n + 1]) == AllContainerSteps(items[..n]) + ContainerSteps(items[n])
    ensures n < |items| ==> ContainerLabels(items[..n + 1]) == ContainerLabels(items[..n]) + ContainerLabel(items[n])
    ensures n < |items| && items[n].kind != "container" ==> ContainerSteps(items[n]) == []
  {
    if n < |items| {
      assert items[..n + 1][..n] == items[..n];
    }
  }

  predicate EndsRemoving(steps: seq<Event>) {
    steps != [] && steps[|steps| - 1].Remove?
  }

  function DeletedBy(steps: seq<Event>, item: Item): seq<string> {
    if EndsRemoving(steps) && steps[|steps| - 1].ok then [item.kind + ": " + item.name] else []
  }

  function ErrorOf(steps: seq<Event>, item: Item): seq<string> {
    if EndsRemoving(steps) && !steps[|steps| - 1].ok then ["not removed: " + item.name] else []
  }

  function WhyKept(item: Item, request: Request): string {
    if item.reason != "" then item.reason else if Selected(item, request) then "still needed" else "not selected"
  }

  function RetainedBy(steps: seq<Event>, item: Item, request: Request): seq<string> {
    if item.kind == "container" || EndsRemoving(steps) then []
    else [item.name + ": " + WhyKept(item, request)]
  }

  function AllDeleted(parts: seq<seq<Event>>, items: seq<Item>): seq<string>
    requires |parts| == |items|
  {
    if items == [] then []
    else
      var n := |items| - 1;
      AllDeleted(parts[..n], items[..n]) + DeletedBy(parts[n], items[n])
  }

  function AllErrors(parts: seq<seq<Event>>, items: seq<Item>): seq<string>
    requires |parts| == |items|
  {
    if items == [] then []
    else
      var n := |items| - 1;
      AllErrors(parts[..n], items[..n]) + ErrorOf(parts[n], items[n])
  }

  function AllRetained(parts: seq<seq<Event>>, items: seq<Item>, request: Request): seq<string>
    requires |parts| == |items|
  {
    if items == [] then []
    else
      var n := |items| - 1;
      AllRetained(parts[..n], items[..n], request) + RetainedBy(parts[n], items[n], request)
  }

  lemma NoTotals(request: Request)
    ensures AllDeleted([], []) == [] && AllErrors([], []) == [] && AllRetained([], [], request) == []
  {
  }

  lemma TotalsOneMore(parts: seq<seq<Event>>, items: seq<Item>, steps: seq<Event>, item: Item, request: Request)
    requires |parts| == |items|
    ensures AllDeleted(parts + [steps], items + [item]) == AllDeleted(parts, items) + DeletedBy(steps, item)
    ensures AllErrors(parts + [steps], items + [item]) == AllErrors(parts, items) + ErrorOf(steps, item)
    ensures AllRetained(parts + [steps], items + [item], request) ==
                AllRetained(parts, items, request) + RetainedBy(steps, item, request)
  {
    assert (parts + [steps])[..|items|] == parts && (items + [item])[..|items|] == items;
  }

  function TargetLabel(plan: Plan, request: Request): string {
    if request.directory then "directory: " + Render(plan.directory) else "file: " + Render(plan.file)
  }

  function KeptLabel(plan: Plan, request: Request): seq<string> {
    if request.directory then [] else ["directory: " + Render(plan.directory)]
  }

  /** A run that stops early reports one error and nothing it did not do; one that comes to the end
      reports every listed item as its steps went, every retained line, the file and its directory. */
  ghost predicate Accounts(result: Result, run: Run, request: Request) {
    && (run.stage < 6 ==> |result.errors| == 1 && result.retained == if run.stage == 2 then [] else run.plan.retained)
    && (run.stage == 2 ==> result.deleted == [])
    && (run.stage == 3 ==> StoppedAmong(run.plan.items, run.containers, result.deleted))
    && (run.stage == 4 || run.stage == 5 ==> result.deleted == ContainerLabels(run.plan.items))
    && (run.stage == 6 ==>
          && |run.resources| == |run.plan.items|
          && result.deleted == ContainerLabels(run.plan.items) + [TargetLabel(run.plan, request)]
            + AllDeleted(run.resources, run.plan.items)
          && result.retained == run.plan.retained + KeptLabel(run.plan, request)
            + AllRetained(run.resources, run.plan.items, request)
          && result.errors == AllErrors(run.resources, run.plan.items))
  }

  lemma OneOutcome(steps: seq<Event>, item: Item, request: Request)
    requires ResourceSteps(steps, item, request)
    ensures |DeletedBy(steps, item)| + |ErrorOf(steps, item)| + |RetainedBy(steps, item, request)| ==
            if item.kind == "container" then 0 else 1
  {
    assert EndsRemoving(steps) ==> !IsRead(steps[|steps| - 1]);
    assert item.kind == "container" ==> !Selected(item, request);
  }

  lemma {:induction false} OutcomesAddUp(parts: seq<seq<Event>>, items: seq<Item>, request: Request)
    requires |parts| == |items| && forall k :: 0 <= k < |parts| ==> ResourceSteps(parts[k], items[k], request)
    ensures |AllDeleted(parts, items)| + |AllErrors(parts, items)| + |AllRetained(parts, items, request)| ==
            |items| - |ContainerLabels(items)|
  {
    hide ResourceSteps, DeletedBy, ErrorOf, RetainedBy;
    if items != [] {
      var n := |items| - 1;
      OutcomesAddUp(parts[..n], items[..n], request);
      OneOutcome(parts[n], items[n], request);
    }
  }

  /** Nothing is forgotten and nothing counted twice: on a run that comes to the end the three lists
      together have one entry for each listed item and each retained line, one for what was removed and,
      when only the file went, one for the directory that stays. */
  lemma AccountsAddUp(result: Result, run: Run, request: Request)
    requires run.stage == 6 && LawfulResources(run, request) && Accounts(result, run, request)
    ensures |result.deleted| + |result.retained| + |result.errors|
         == |run.plan.items| + |run.plan.retained| + if request.directory then 1 else 2
  {
    OutcomesAddUp(run.resources, run.plan.items, request);
  }

  // ----- the report says what was done ---------------------------------------------------------------

  /** The steps of item `k` end with an attempt to remove it, with this outcome. */
  ghost predicate Attempted(run: Run, k: nat, ok: bool) {
    && k < |run.resources| && k < |run.plan.items|
    && run.resources[k] != []
    && run.resources[k][|run.resources[k]| - 1] == Remove(run.plan.items[k].kind, run.plan.items[k].id, ok)
  }

  lemma {:induction false} ContainerLabelsAre(items: seq<Item>, line: string)
    ensures line in ContainerLabels(items) <==>
            exists item :: item in items && item.kind == "container" && line == "container: " + item.name
  {
    if items != [] {
      ContainerLabelsAre(items[..|items| - 1], line);
      assert items == items[..|items| - 1] + [items[|items| - 1]];
    }
  }

  lemma {:induction false} DeletedAre(parts: seq<seq<Event>>, items: seq<Item>, line: string)
    requires |parts| == |items|
    ensures line in AllDeleted(parts, items) <==>
            exists k :: 0 <= k < |items| && line in DeletedBy(parts[k], items[k])
  {
    hide DeletedBy;
    if items != [] {
      var n := |items| - 1;
      DeletedAre(parts[..n], items[..n], line);
      assert forall k :: 0 <= k < n ==> parts[..n][k] == parts[k] && items[..n][k] == items[k];
      if line in DeletedBy(parts[n], items[n]) {
        assert line in AllDeleted(parts, items);
      }
    }
  }

  lemma {:induction false} ErrorsAre(parts: seq<seq<Event>>, items: seq<Item>, line: string)
    requires |parts| == |items|
    ensures line in AllErrors(parts, items) <==> exists k :: 0 <= k < |items| && line in ErrorOf(parts[k], items[k])
  {
    hide ErrorOf;
    if items != [] {
      var n := |items| - 1;
      ErrorsAre(parts[..n], items[..n], line);
      assert forall k :: 0 <= k < n ==> parts[..n][k] == parts[k] && items[..n][k] == items[k];
      if line in ErrorOf(parts[n], items[n]) {
        assert line in AllErrors(parts, items);
      }
    }
  }

  lemma {:induction false} RetainedAre(parts: seq<seq<Event>>, items: seq<Item>, request: Request, line: string)
    requires |parts| == |items|
    ensures line in AllRetained(parts, items, request) <==>
            exists k :: 0 <= k < |items| && line in RetainedBy(parts[k], items[k], request)
  {
    hide RetainedBy;
    if items != [] {
      var n := |items| - 1;
      RetainedAre(parts[..n], items[..n], request, line);
      assert forall k :: 0 <= k < n ==> parts[..n][k] == parts[k] && items[..n][k] == items[k];
      if line in RetainedBy(parts[n], items[n], request) {
        assert line in AllRetained(parts, items, request);
      }
    }
  }

  /** What one item adds to the report. */
  lemma OneReport(run: Run, request: Request, k: nat)
    requires LawfulResources(run, request) && run.stage == 6 && k < |run.plan.items|
    ensures var item, steps := run.plan.items[k], run.resources[k];
            && DeletedBy(steps, item) == (if Attempted(run, k, true) then [item.kind + ": " + item.name] else [])
            && ErrorOf(steps, item) == (if Attempted(run, k, false) then ["not removed: " + item.name] else [])
            && RetainedBy(steps, item, request) == KeptLine(run, request, k)
  {
    var steps := run.resources[k];
    assert ResourceSteps(steps, run.plan.items[k], request);
    hide Rechecked;
    assert EndsRemoving(steps) ==> !IsRead(steps[|steps| - 1]);
  }

  /** The report of a run that comes to the end: deleted are the listed containers, the file or the
      directory, and exactly the images and volumes whose removal succeeded; errors are exactly those whose
      removal failed; and retained is what the plan keeps, a directory that was not asked for, and every
      image and volume that nobody tried to remove, with the reason. */
  lemma ReportIsTrue(result: Result, run: Run, request: Request, line: string)
    requires run.stage == 6 && LawfulResources(run, request) && Accounts(result, run, request)
    ensures line in result.deleted <==>
            || (exists item :: item in run.plan.items && item.kind == "container" && line == "container: " + item.name)
            || line == (if request.directory then "directory: " + Render(run.plan.directory)
                        else "file: " + Render(run.plan.file))
            || (exists k: nat :: Attempted(run, k, true)
                  && line == run.plan.items[k].kind + ": " + run.plan.items[k].name)
    ensures line in result.errors <==>
            exists k: nat :: Attempted(run, k, false) && line == "not removed: " + run.plan.items[k].name
    ensures line in result.retained <==>
            || line in run.plan.retained || (!request.directory && line == "directory: " + Render(run.plan.directory))
            || (exists k: nat :: k < |run.plan.items| && line in KeptLine(run, request, k))
  {
    ContainerLabelsAre(run.plan.items, line);
    DeletedAre(run.resources, run.plan.items, line);
    ErrorsAre(run.resources, run.plan.items, line);
    RetainedAre(run.resources, run.plan.items, request, line);
    forall k: nat | k < |run.plan.items|
      ensures line in DeletedBy(run.resources[k], run.plan.items[k]) <==>
              Attempted(run, k, true) && line == run.plan.items[k].kind + ": " + run.plan.items[k].name
      ensures line in ErrorOf(run.resources[k], run.plan.items[k]) <==>
              Attempted(run, k, false) && line == "not removed: " + run.plan.items[k].name
      ensures RetainedBy(run.resources[k], run.plan.items[k], request) == KeptLine(run, request, k)
    {
      OneReport(run, request, k);
    }
    hide DeletedBy, ErrorOf, RetainedBy, AllDeleted, AllErrors, AllRetained, ContainerLabels, KeptLine;
  }

  /** An image or volume that nobody tried to remove stays for the reason the plan gives, because it was not
      selected, or because it was found to be needed after all. */
  ghost function KeptLine(run: Run, request: Request, k: nat): seq<string>
    requires k < |run.plan.items|
  {
    var item := run.plan.items[k];
    if item.kind == "container" || Attempted(run, k, true) || Attempted(run, k, false) then []
    else if item.reason != "" then [item.name + ": " + item.reason]
    else if (item.kind == "image" && request.images) || (item.kind == "volume" && request.volumes) then
      [item.name + ": " + "still needed"]
    else [item.name + ": " + "not selected"]
  }

  lemma ContainerIsLeft(item: Item, request: Request)
    requires item.kind == "container"
    ensures ResourceSteps([], item, request)
    ensures DeletedBy([], item) == [] && ErrorOf([], item) == [] && RetainedBy([], item, request) == []
  {
  }

  lemma FlattenOneMore(parts: seq<seq<Event>>, part: seq<Event>)
    ensures Flatten(parts + [part]) == Flatten(parts) + part && Flatten([]) == []
  {
    assert (parts + [part])[..|parts|] == parts;
  }

  lemma ShiftShort(before: seq<Event>, full: seq<Event>, did: seq<Event>)
    requires CutShort(full, did)
    ensures CutShort(before + full, before + did)
  {
    var n :| 0 <= n < |full| && !IsRead(full[n]) && did == full[..n] + [AsFailed(full[n])];
    var whole := before + full;
    assert whole[..|before| + n] == before + full[..n];
    assert before + did == whole[..|before| + n] + [AsFailed(whole[|before| + n])];
  }

  lemma ContainerStays(items: seq<Item>, n: nat, before: seq<Event>, did: seq<Event>)
    requires n < |items| && before == AllContainerSteps(items[..n]) && CutShort(ContainerSteps(items[n]), did)
    ensures CutShort(AllContainerSteps(items), before + did)
  {
    ShiftShort(before, ContainerSteps(items[n]), did);
    StoppedShort(items, n, before + did);
  }

  /** Stopping inside the steps of item `n` stops inside the whole list. */
  lemma {:induction false} StoppedShort(items: seq<Item>, n: nat, did: seq<Event>)
    requires n < |items|
    requires CutShort(AllContainerSteps(items[..n]) + ContainerSteps(items[n]), did)
    ensures CutShort(AllContainerSteps(items), did)
    decreases |items|
  {
    if n == |items| - 1 {
      assert items[..n + 1] == items;
    } else {
      var rest := items[..|items| - 1];
      assert rest[..n] == items[..n];
      StoppedShort(rest, n, did);
      var full, longer := AllContainerSteps(rest), AllContainerSteps(items);
      var m :| 0 <= m < |full| && !IsRead(full[m]) && did == full[..m] + [AsFailed(full[m])];
      assert longer[..m] == full[..m] && longer[m] == full[m];
    }
  }
}
