/** What one confirmed deletion may do, as a sequence of events: everything it reads from the
    system, which may answer anything at any moment, and everything it does to it. */
module RemovalTrace {
  import opened Paths
  import opened Docker
  import opened Options
  import opened Discovery
  import opened DiscoveryReach
  import opened RemovalPaths
  import opened RemovalPlan
  import opened RemovalItems
  import opened PlanContents

  datatype Request = Request(token: string, name: string, directory: bool, images: bool, volumes: bool)

  datatype Event =
    | ReadClock(now: int)
    | ReadInventory(files: Option<seq<RemovalFile>>)
    | ReadResources(resources: Option<Resources>)
    | ReadImages(images: Option<seq<Image>>)
    | ReadProbe(directory: Path, probe: Probe)
    | ReadTree(directory: Path, tree: seq<TreeEntry>)
    | ResolveFile(file: Path, resolved: Option<Path>)
    | Audit(status: string, ok: bool)
    | ReadSource(file: Path, data: string, ok: bool)
    | WriteBackup(token: string, name: string, data: string, ok: bool)
    | StopContainer(id: string, ok: bool)
    | Remove(kind: string, id: string, ok: bool)
    | RemoveDirectory(target: Path, ok: bool)
    | RemoveFile(target: Path, ok: bool)

  predicate IsRead(e: Event) {
    e.ReadClock? || e.ReadInventory? || e.ReadResources? || e.ReadImages? || e.ReadProbe? || e.ReadTree?
      || e.ResolveFile?
  }

  ghost predicate AllReads(s: seq<Event>) {
    forall i :: 0 <= i < |s| ==> IsRead(s[i])
  }

  /** The stages of a deletion, in the order they must come. */
  function Rank(e: Event): nat {
    match e
    case Audit(status, _) => if status == "started" then 1 else 6
    case ReadSource(_, _, _) => 2
    case WriteBackup(_, _, _, _) => 2
    case StopContainer(_, _) => 3
    case Remove(kind, _, _) => if kind == "container" then 3 else 5
    case RemoveDirectory(_, _) => 4
    case RemoveFile(_, _) => 4
    case _ => 0
  }

  predicate Failed(e: Event) {
    !IsRead(e) && !e.ok
  }

  function AsFailed(e: Event): Event
    requires !IsRead(e)
  {
    e.(ok := false)
  }

  // ----- the parts of a run -----------------------------------------------------------------------

  /** The answers of one successful planning for this directory; the directory's contents are read only
      when nothing else blocks. */
  ghost function PlanReads(snap: Snapshot, directory: Path, walked: bool): seq<Event> {
    [ReadInventory(Some(snap.files)), ReadResources(Some(snap.resources)), ReadImages(Some(snap.images)),
     ReadProbe(directory, snap.probe)]
    + if walked then [ReadTree(directory, snap.tree)] else []
  }

  ghost predicate PlannedFrom(answers: seq<Event>, plan: Plan, snap: Snapshot, key: string, config: Config) {
    && IsPlan(plan, snap, key, config)
    && (|| answers == PlanReads(snap, plan.directory, true)
        || (answers == PlanReads(snap, plan.directory, false) && plan.blocked != ""))
  }

  predicate Active(state: string) {
    state == "running" || state == "restarting" || state == "paused"
  }

  function ContainerSteps(item: Item): seq<Event> {
    if item.kind != "container" then []
    else (if Active(item.state) then [StopContainer(item.id, true)] else []) + [Remove("container", item.id, true)]
  }

  /** What removing all listed containers does when nothing fails. */
  function AllContainerSteps(items: seq<Item>): seq<Event> {
    if items == [] then [] else AllContainerSteps(items[..|items| - 1]) + ContainerSteps(items[|items| - 1])
  }

  /** A sequence of steps that stopped at its first failure. */
  ghost predicate CutShort(full: seq<Event>, s: seq<Event>) {
    exists n :: 0 <= n < |full| && !IsRead(full[n]) && s == full[..n] + [AsFailed(full[n])]
  }

  predicate Selected(item: Item, request: Request) {
    (item.kind == "image" && request.images) || (item.kind == "volume" && request.volumes)
  }

  /** Nothing that was read needs the image: no container runs from it and no Compose file may mean
      it, unless Docker no longer lists it. */
  ghost predicate ImageUnused(id: string, r: Resources, files: seq<RemovalFile>, images: seq<Image>) {
    && (forall c :: c in r.containers ==> c.imageId != id)
    && forall image :: image in images && image.id == id ==>
         forall file :: file in files ==> !file.uncertain && !MayName(file, image)
  }

  /** Nothing that was read needs the volume. */
  ghost predicate VolumeUnused(name: string, r: Resources, files: seq<RemovalFile>) {
    && (forall c, m :: c in r.containers && m in c.mounts ==> m.name != name)
    && forall file :: file in files ==> !file.uncertain && name !in file.volumes
  }

  ghost predicate ImageRechecked(s: seq<Event>, id: string) {
    && |s| == 3 && s[0].ReadResources? && s[1].ReadInventory? && s[2].ReadImages?
    && s[0].resources.Some? && s[1].files.Some? && s[2].images.Some?
    && ImageUnused(id, s[0].resources.value, s[1].files.value, s[2].images.value)
  }

  ghost predicate VolumeRechecked(s: seq<Event>, name: string) {
    && |s| == 2 && s[0].ReadResources? && s[1].ReadInventory?
    && s[0].resources.Some? && s[1].files.Some?
    && VolumeUnused(name, s[0].resources.value, s[1].files.value)
  }

  ghost predicate Rechecked(answers: seq<Event>, item: Item) {
    if item.kind == "image" then ImageRechecked(answers, item.id) else VolumeRechecked(answers, item.id)
  }

  /** What happens to one listed item after the file is gone: an item that is not selected or has a
      reason to stay is left alone; any other is read up on, and removed exactly if the readings show
      that nothing needs it. */
  ghost predicate ResourceSteps(s: seq<Event>, item: Item, request: Request) {
    if !((item.kind == "image" && request.images) || (item.kind == "volume" && request.volumes)) then s == []
    else if item.reason != "" then s == []
    else if AllReads(s) then !Rechecked(s, item)
    else
      var last, answers := s[|s| - 1], s[..|s| - 1];
      last.Remove? && last.kind == item.kind && last.id == item.id && Rechecked(answers, item)
  }

  /** The file or the directory is removed exactly if a last look at the same path finds it in order. */
  ghost predicate TargetSteps(s: seq<Event>, ok: bool, plan: Plan, request: Request, config: Config) {
    && s != []
    && if request.directory then
         && s[0].ReadProbe? && s[0].directory == plan.directory
         && if RemovalDirectory(config.roots, plan.directory, s[0].probe) == ""
            then s == [s[0], RemoveDirectory(Clean(plan.directory), ok)] else |s| == 1 && !ok
       else
         && s[0].ResolveFile? && s[0].file == plan.file
         && if s[0].resolved == Some(plan.file) then s == [s[0], RemoveFile(plan.file, ok)] else |s| == 1 && !ok
  }

  /** The backup of the Compose file: what was read from it is written under its name and the token. */
  ghost predicate BackupSteps(s: seq<Event>, ok: bool, plan: Plan, request: Request) {
    && s != [] && s[0].ReadSource? && s[0].file == plan.file
    && if s[0].ok then s == [s[0], WriteBackup(request.token, BaseName(plan.file), s[0].data, ok)] else |s| == 1 && !ok
  }

  // ----- reasons to refuse ------------------------------------------------------------------------

  /** The target may be deleted as a project. */
  ghost predicate Acceptable(files: seq<RemovalFile>, k: nat, key: string, config: Config) {
    OnlyFileOf(files, key, k) && !ExcludedFromProjects(config.roots, files[k].file)
  }

  ghost predicate ForeignContainers(file: RemovalFile, resources: Resources, config: Config) {
    var mounts := MapperOf(resources.containers, config.hostname).mounts;
    !AllBelong(resources.containers, file.key, config.hostname, mounts, Host(mounts, file.workingDir),
               Host(mounts, file.file))
  }

  ghost predicate FailedRead(answers: seq<Event>) {
    exists i :: 0 <= i < |answers|
      && (answers[i] == ReadInventory(None) || answers[i] == ReadResources(None) || answers[i] == ReadImages(None))
  }

  ghost predicate NoTarget(answers: seq<Event>, key: string, config: Config) {
    && |answers| >= 1 && answers[0].ReadInventory? && answers[0].files.Some?
    && forall k: nat :: !Acceptable(answers[0].files.value, k, key, config)
  }

  ghost predicate MixedUp(answers: seq<Event>, key: string, config: Config) {
    && |answers| >= 2 && answers[0].ReadInventory? && answers[0].files.Some?
    && answers[1].ReadResources? && answers[1].resources.Some?
    && exists k: nat :: Acceptable(answers[0].files.value, k, key, config)
         && ForeignContainers(answers[0].files.value[k], answers[1].resources.value, config)
  }

  /** The answers give a reason to refuse the project. */
  ghost predicate RefusalShown(answers: seq<Event>, key: string, config: Config) {
    config.demo || !ValidKey(key) || FailedRead(answers) || NoTarget(answers, key, config)
      || MixedUp(answers, key, config)
  }

  /** The second plan, made with the containers gone, agrees with the first. */
  ghost predicate Confirms(second: Plan, plan: Plan, request: Request) {
    && second.configSha == plan.configSha && second.file == plan.file && second.directory == plan.directory
    && (forall item :: item in second.items ==> item.kind != "container")
    && (request.directory ==> second.blocked == "")
  }

  // ----- whole runs ---------------------------------------------------------------------------------

  function Flatten(parts: seq<seq<Event>>): seq<Event> {
    if parts == [] then [] else Flatten(parts[..|parts| - 1]) + parts[|parts| - 1]
  }

  /** A run, cut into its parts. `stage` tells how far it came: 0 refused, 1 the audit record failed,
      2 no backup, 3 a container stayed, 4 the second planning objected, 5 the file or directory
      stayed, 6 all listed resources were handled. */
  datatype Run = Run(
    stage: nat, admission: seq<Event>, audit: seq<Event>, backup: seq<Event>, containers: seq<Event>,
    replan: seq<Event>, target: seq<Event>, resources: seq<seq<Event>>, closing: seq<Event>,
    plan: Plan, snap: Snapshot, second: Plan, secondSnap: Snapshot)

  ghost function Work(run: Run): seq<Event> {
    run.backup + run.containers + run.replan + run.target + Flatten(run.resources)
  }

  ghost function Events(run: Run): seq<Event> {
    run.admission + (run.audit + Work(run) + run.closing)
  }

  ghost predicate LawfulBackup(run: Run, request: Request) {
    if run.stage < 2 then run.backup == [] else BackupSteps(run.backup, run.stage > 2, run.plan, request)
  }

  ghost predicate LawfulContainers(run: Run) {
    if run.stage < 3 then run.containers == []
    else if run.stage == 3 then CutShort(AllContainerSteps(run.plan.items), run.containers)
    else run.containers == AllContainerSteps(run.plan.items)
  }

  /** The run goes on exactly if the second planning succeeds and confirms what the first one said. */
  ghost predicate LawfulReplan(run: Run, key: string, request: Request, config: Config) {
    && AllReads(run.replan) && (run.stage < 4 ==> run.replan == [])
    && (run.stage == 4 ==>
          || RefusalShown(run.replan, key, config)
          || (PlannedFrom(run.replan, run.second, run.secondSnap, key, config)
              && !Confirms(run.second, run.plan, request)))
    && (run.stage > 4 ==>
          PlannedFrom(run.replan, run.second, run.secondSnap, key, config) && Confirms(run.second, run.plan, request))
  }

  ghost predicate LawfulTarget(run: Run, request: Request, config: Config) {
    if run.stage < 5 then run.target == [] else TargetSteps(run.target, run.stage > 5, run.plan, request, config)
  }

  ghost predicate LawfulResources(run: Run, request: Request) {
    if run.stage < 6 then run.resources == []
    else
      && |run.resources| == |run.plan.items|
      && forall k :: 0 <= k < |run.resources| ==> ResourceSteps(run.resources[k], run.plan.items[k], request)
  }

  /** The protocol. */
  ghost predicate Lawful(run: Run, key: string, request: Request, config: Config) {
    && run.stage <= 6
    && AllReads(run.admission)
    && (run.stage >= 1 ==>
          && run.admission != [] && run.admission[0].ReadClock?
          && PlannedFrom(run.admission[1..], run.plan, run.snap, key, config)
          && run.plan.name == request.name && (request.directory ==> run.plan.blocked == ""))
    && run.audit == (if run.stage >= 1 then [Audit("started", run.stage >= 2)] else [])
    && LawfulBackup(run, request) && LawfulContainers(run) && LawfulReplan(run, key, request, config)
    && LawfulTarget(run, request, config) && LawfulResources(run, request)
    && (if run.stage < 2 then run.closing == []
        else |run.closing| == 1 && run.closing[0].Audit? && run.closing[0].status != "started")
  }

  // ----- order of effects -----------------------------------------------------------------------------

  /** All effects of the segment have this rank. */
  ghost predicate Ranked(s: seq<Event>, rank: nat) {
    forall i :: 0 <= i < |s| && !IsRead(s[i]) ==> Rank(s[i]) == rank
  }

  /** Effects come in order of rank, and after a failed one of rank below five only the closing
      audit record follows. */
  ghost predicate Orderly(s: seq<Event>) {
    forall i, j :: 0 <= i < j < |s| && !IsRead(s[i]) && !IsRead(s[j]) ==>
      Rank(s[i]) <= Rank(s[j]) && (Failed(s[i]) && Rank(s[i]) < 5 ==> Rank(s[j]) == 6)
  }

  ghost predicate NoFailure(s: seq<Event>) {
    forall i :: 0 <= i < |s| ==> !Failed(s[i])
  }

  /** Orderly, no effect beyond this rank, and free of failures when more is to come. */
  ghost predicate UpTo(s: seq<Event>, rank: nat, more: bool) {
    && Orderly(s) && (more ==> NoFailure(s))
    && forall i :: 0 <= i < |s| && !IsRead(s[i]) ==> Rank(s[i]) <= rank
  }

  lemma Extend(a: seq<Event>, b: seq<Event>, rank0: nat, rank: nat, more0: bool, more: bool)
    requires UpTo(a, rank0, more0) && rank0 <= rank && Orderly(b) && Ranked(b, rank)
    requires more0 || AllReads(b) || rank == 6
    requires more ==> more0 && NoFailure(b)
    ensures UpTo(a + b, rank, more)
  {
    var s := a + b;
    assert forall i :: |a| <= i < |s| ==> s[i] == b[i - |a|];
  }

  predicate ContainerWork(e: Event) {
    (e.StopContainer? || (e.Remove? && e.kind == "container")) && e.ok
  }

  ghost predicate AllContainerWork(s: seq<Event>) {
    forall i :: 0 <= i < |s| ==> ContainerWork(s[i])
  }

  lemma {:induction false} ContainerStepsWork(items: seq<Item>)
    ensures AllContainerWork(AllContainerSteps(items))
  {
    if items != [] {
      ContainerStepsWork(items[..|items| - 1]);
      assert AllContainerWork(ContainerSteps(items[|items| - 1]));
    }
  }

  lemma WorkIsOrderly(s: seq<Event>)
    requires AllContainerWork(s)
    ensures Ranked(s, 3) && Orderly(s) && NoFailure(s)
  {
  }

  lemma CutWorkIsOrderly(full: seq<Event>, s: seq<Event>)
    requires AllContainerWork(full) && CutShort(full, s)
    ensures Ranked(s, 3) && Orderly(s)
  {
    var n :| 0 <= n < |full| && !IsRead(full[n]) && s == full[..n] + [AsFailed(full[n])];
    assert ContainerWork(full[n]);
    WorkIsOrderly(full[..n]);
  }

  lemma ContainersOrderly(run: Run)
    requires LawfulContainers(run)
    ensures Ranked(run.containers, 3) && Orderly(run.containers)
    ensures run.stage > 3 ==> NoFailure(run.containers)
  {
    hide AllContainerSteps, AllContainerWork, CutShort, Ranked, Orderly, NoFailure;
    ContainerStepsWork(run.plan.items);
    var full := AllContainerSteps(run.plan.items);
    WorkIsOrderly(full);
    if run.stage == 3 {
      CutWorkIsOrderly(full, run.containers);
    } else if run.stage < 3 {
      NothingIsOrderly();
    }
  }

  lemma NothingIsOrderly()
    ensures Ranked([], 3) && Orderly([])
  {
  }

  lemma {:induction false} ResourcesRanked(parts: seq<seq<Event>>, items: seq<Item>, request: Request)
    requires |parts| == |items|
    requires forall k :: 0 <= k < |parts| ==> ResourceSteps(parts[k], items[k], request)
    ensures Ranked(Flatten(parts), 5)
  {
    if parts != [] {
      var n := |parts| - 1;
      ResourcesRanked(parts[..n], items[..n], request);
      assert ResourceSteps(parts[n], items[n], request);
      StepsRanked(parts[n], items[n], request);
    }
  }

  lemma StepsRanked(s: seq<Event>, item: Item, request: Request)
    requires ResourceSteps(s, item, request)
    ensures Ranked(s, 5)
  {
    if !AllReads(s) {
      var answers := s[..|s| - 1];
      assert forall i :: 0 <= i < |answers| ==> s[i] == answers[i];
      assert AllReads(answers);
    }
  }

  lemma BackupOrderly(run: Run, request: Request)
    requires LawfulBackup(run, request)
    ensures Orderly(run.backup) && Ranked(run.backup, 2)
    ensures run.stage < 2 ==> AllReads(run.backup)
    ensures run.stage > 2 ==> NoFailure(run.backup)
  {
  }

  lemma TargetOrderly(run: Run, request: Request, config: Config)
    requires LawfulTarget(run, request, config)
    ensures Orderly(run.target) && Ranked(run.target, 4)
    ensures run.stage < 5 ==> AllReads(run.target)
    ensures run.stage > 5 ==> NoFailure(run.target)
  {
  }

  ghost function Opening(run: Run): seq<Event> {
    run.admission + run.audit + run.backup + run.containers + run.replan
  }

  lemma OpeningOrderly(run: Run, key: string, request: Request, config: Config)
    requires Lawful(run, key, request, config)
    ensures UpTo(Opening(run), 3, run.stage > 4)
  {
    hide PlannedFrom, ResourceSteps, LawfulTarget, LawfulResources, AllContainerSteps, CutShort;
    Extend(run.admission, run.audit, 1, 1, true, run.stage > 1);
    BackupOrderly(run, request);
    Extend(run.admission + run.audit, run.backup, 1, 2, run.stage > 1, run.stage > 2);
    ContainersOrderly(run);
    Extend(run.admission + run.audit + run.backup, run.containers, 2, 3, run.stage > 2, run.stage > 3);
    Extend(run.admission + run.audit + run.backup + run.containers, run.replan, 3, 3, run.stage > 3, run.stage > 4);
  }

  /** The six stages come in order, and a failure up to and including the removal of the file or the
      directory rules out everything after it but the closing audit record. */
  lemma EffectsInOrder(run: Run, key: string, request: Request, config: Config)
    requires Lawful(run, key, request, config)
    ensures Orderly(Events(run))
  {
    hide Opening, Events, Work, PlannedFrom, LawfulBackup, LawfulContainers, LawfulReplan, ResourceSteps, UpTo;
    OpeningOrderly(run, key, request, config);
    TargetOrderly(run, request, config);
    Extend(Opening(run), run.target, 3, 4, run.stage > 4, run.stage > 5);
    if run.stage == 6 { ResourcesRanked(run.resources, run.plan.items, request); }
    Extend(Opening(run) + run.target, Flatten(run.resources), 4, 5, run.stage > 5, false);
    Extend(Opening(run) + run.target + Flatten(run.resources), run.closing, 5, 6, false, false);
    EventsByStage(run);
    UpToIsOrderly(Events(run), 6);
  }

  lemma UpToIsOrderly(s: seq<Event>, rank: nat)
    requires UpTo(s, rank, false)
    ensures Orderly(s)
  {
  }

  // ----- what is touched -------------------------------------------------------------------------------

  lemma {:induction false} FlattenAt(parts: seq<seq<Event>>, i: nat) returns (k: nat, j: nat)
    requires i < |Flatten(parts)|
    ensures k < |parts| && j < |parts[k]| && j <= i
    ensures Flatten(parts)[i - j..i + 1] == parts[k][..j + 1]
  {
    var n := |parts| - 1;
    var head := Flatten(parts[..n]);
    if i < |head| {
      k, j := FlattenAt(parts[..n], i);
      assert Flatten(parts)[i - j..i + 1] == head[i - j..i + 1];
    } else {
      k, j := n, i - |head|;
    }
  }

  ghost predicate Avoids(s: seq<Event>, rank: nat) {
    forall i :: 0 <= i < |s| && !IsRead(s[i]) ==> Rank(s[i]) != rank
  }

  lemma AvoidsConcat(a: seq<Event>, b: seq<Event>, rank: nat)
    requires Avoids(a, rank) && Avoids(b, rank)
    ensures Avoids(a + b, rank)
  {
  }

  /** An effect of a rank that only the middle part has lies in the middle part. */
  lemma InMiddle(front: seq<Event>, middle: seq<Event>, rest: seq<Event>, rank: nat, i: nat) returns (m: nat)
    requires Avoids(front, rank) && Avoids(rest, rank)
    requires i < |front + middle + rest|
    requires !IsRead((front + middle + rest)[i]) && Rank((front + middle + rest)[i]) == rank
    ensures i == |front| + m && m < |middle| && (front + middle + rest)[i] == middle[m]
  {
    var s := front + middle + rest;
    assert forall x :: 0 <= x < |front| ==> s[x] == front[x];
    assert forall x :: |front| + |middle| <= x < |s| ==> s[x] == rest[x - |front| - |middle|];
    m := i - |front|;
  }

  lemma SliceOfMiddle(front: seq<Event>, middle: seq<Event>, rest: seq<Event>, a: nat, b: nat)
    requires a <= b <= |middle|
    ensures (front + middle + rest)[|front| + a..|front| + b] == middle[a..b]
  {
  }

  ghost function Start(run: Run): seq<Event> {
    run.admission + run.audit + run.backup
  }

  ghost function Tail(run: Run): seq<Event> {
    Flatten(run.resources) + run.closing
  }

  lemma EventsByStage(run: Run)
    ensures Events(run) == Start(run) + run.containers + (run.replan + run.target + Tail(run))
    ensures Events(run) == Opening(run) + run.target + Tail(run)
    ensures Events(run) == (Opening(run) + run.target) + Flatten(run.resources) + run.closing
  {
  }

  lemma TailRanks(run: Run, key: string, request: Request, config: Config)
    requires Lawful(run, key, request, config)
    ensures Ranked(Flatten(run.resources), 5) && Ranked(run.closing, 6)
    ensures Avoids(Tail(run), 3) && Avoids(Tail(run), 4)
  {
    hide ResourceSteps, PlannedFrom, AllContainerSteps, CutShort;
    if run.stage == 6 { ResourcesRanked(run.resources, run.plan.items, request); }
  }

  lemma TargetRanks(run: Run, key: string, request: Request, config: Config)
    requires Lawful(run, key, request, config)
    ensures Ranked(run.target, 4) && AllReads(run.replan)
  {
    TargetOrderly(run, request, config);
  }

  lemma StartRanks(run: Run, key: string, request: Request, config: Config)
    requires Lawful(run, key, request, config)
    ensures Avoids(Start(run), 3) && Avoids(Opening(run), 4) && Avoids(Opening(run), 5)
  {
    BackupOrderly(run, request);
    OpeningOrderly(run, key, request, config);
  }

  lemma AroundResources(run: Run, key: string, request: Request, config: Config)
    requires Lawful(run, key, request, config)
    ensures Avoids(Opening(run) + run.target, 5) && Avoids(run.closing, 5)
  {
    StartRanks(run, key, request, config);
    TargetRanks(run, key, request, config);
    TailRanks(run, key, request, config);
    AvoidsConcat(Opening(run), run.target, 5);
  }

  lemma FlatRemovalAt(front: seq<Event>, parts: seq<seq<Event>>, rest: seq<Event>, i: nat) returns (k: nat, j: nat)
    requires Avoids(front, 5) && Avoids(rest, 5)
    requires i < |front + Flatten(parts) + rest| && Rank((front + Flatten(parts) + rest)[i]) == 5
    ensures k < |parts| && j < |parts[k]| && j <= i
    ensures (front + Flatten(parts) + rest)[i - j..i + 1] == parts[k][..j + 1]
  {
    var m := InMiddle(front, Flatten(parts), rest, 5, i);
    k, j := FlattenAt(parts, m);
    SliceOfMiddle(front, Flatten(parts), rest, m - j, m + 1);
  }

  /** Only the resources part removes images and volumes. */
  lemma ResourceRemovalAt(run: Run, key: string, request: Request, config: Config, i: nat) returns (k: nat, j: nat)
    requires Lawful(run, key, request, config)
    ensures i < |Events(run)| && Rank(Events(run)[i]) == 5 ==>
              && k < |run.resources| && j < |run.resources[k]| && j <= i
              && Events(run)[i - j..i + 1] == run.resources[k][..j + 1]
  {
    hide Lawful, Events, Opening, Flatten, Avoids;
    k, j := 0, 0;
    if i < |Events(run)| && Rank(Events(run)[i]) == 5 {
      EventsByStage(run);
      AroundResources(run, key, request, config);
      k, j := FlatRemovalAt(Opening(run) + run.target, run.resources, run.closing, i);
    }
  }

  lemma LastStepRemoves(s: seq<Event>, item: Item, request: Request, j: nat)
    requires ResourceSteps(s, item, request) && j < |s| && !IsRead(s[j])
    ensures j == |s| - 1 && Selected(item, request) && item.reason == ""
    ensures s[j].Remove? && s[j].kind == item.kind && s[j].id == item.id
    ensures Rechecked(s[..j], item)
  {
    NotAllReads(s, j);
    var answers := s[..|s| - 1];
    assert AllReads(answers);
    assert forall x :: 0 <= x < |answers| ==> IsRead(s[x]) by {
      assert forall x :: 0 <= x < |answers| ==> s[x] == answers[x];
    }
  }

  lemma NotAllReads(s: seq<Event>, j: nat)
    requires j < |s| && !IsRead(s[j])
    ensures !AllReads(s)
  {
  }

  ghost predicate ImageRemovalSafe(t: seq<Event>, i: nat, run: Run, key: string, request: Request)
    requires i < |t| && t[i].Remove?
  {
    && request.images && i >= 3 && ImageRechecked(t[i - 3..i], t[i].id)
    && exists k: nat ::
         && OnlyFileOf(run.snap.files, key, k) && ImageFree(t[i].id, run.snap, run.snap.files[k])
         && Candidate(t[i].id, run.snap, run.snap.files[k])
  }

  ghost predicate VolumeRemovalSafe(t: seq<Event>, i: nat, run: Run, key: string, request: Request)
    requires i < |t| && t[i].Remove?
  {
    && request.volumes && i >= 2 && VolumeRechecked(t[i - 2..i], t[i].id)
    && OwnVolume(t[i].id, run.snap.resources.volumes, key)
    && exists k: nat :: OnlyFileOf(run.snap.files, key, k) && VolumeFree(t[i].id, run.snap, run.snap.files[k])
  }

  /** Nothing shared is removed, in any run and whatever the system answers: every removal of an image
      or a volume was ticked by the user, concerns an image of the project or a volume with its label, was
      free of other users when the plan was confirmed, and comes directly after new readings in which
      nothing needs it. */
  lemma SharedResourcesAreSafe(run: Run, key: string, request: Request, config: Config)
    requires Lawful(run, key, request, config)
    ensures forall i :: 0 <= i < |Events(run)| && Events(run)[i].Remove? && Events(run)[i].kind != "container" ==>
              SharedRemovalIsSafe(Events(run), i, run, key, request)
  {
    hide Lawful, SharedRemovalIsSafe, Events;
    forall i | 0 <= i < |Events(run)| && Events(run)[i].Remove? && Events(run)[i].kind != "container"
      ensures SharedRemovalIsSafe(Events(run), i, run, key, request)
    {
      OneRemovalIsSafe(run, key, request, config, i);
    }
  }

  ghost predicate SharedRemovalIsSafe(t: seq<Event>, i: nat, run: Run, key: string, request: Request)
    requires i < |t|
  {
    && t[i].Remove?
    && (exists item :: item in run.plan.items && item.kind == t[i].kind && item.id == t[i].id)
    && if t[i].kind == "image" then ImageRemovalSafe(t, i, run, key, request)
       else t[i].kind == "volume" && VolumeRemovalSafe(t, i, run, key, request)
  }

  lemma OneRemovalIsSafe(run: Run, key: string, request: Request, config: Config, i: nat)
    requires Lawful(run, key, request, config) && i < |Events(run)|
    ensures Rank(Events(run)[i]) == 5 ==> SharedRemovalIsSafe(Events(run), i, run, key, request)
  {
    hide Lawful, Events, ResourceSteps;
    var t := Events(run);
    if Rank(t[i]) == 5 {
      var k, j := ResourceRemovalAt(run, key, request, config, i);
      RemovalSteps(run, key, request, config);
      assert !IsRead(t[i]);
      assert ResourceSteps(run.resources[k], run.plan.items[k], request);
      RemovedSafely(t, i, j, run.resources[k], run.plan.items[k], run, key, request, config);
    }
  }

  lemma RemovedSafely(t: seq<Event>, i: nat, j: nat, steps: seq<Event>, item: Item, run: Run, key: string,
                      request: Request, config: Config)
    requires i < |t| && j < |steps| && j <= i && t[i - j..i + 1] == steps[..j + 1] && !IsRead(t[i])
    requires ResourceSteps(steps, item, request)
    requires IsPlan(run.plan, run.snap, key, config) && item in run.plan.items
    ensures t[i].Remove? && item.kind == t[i].kind && item.id == t[i].id
    ensures if t[i].kind == "image" then ImageRemovalSafe(t, i, run, key, request)
            else t[i].kind == "volume" && VolumeRemovalSafe(t, i, run, key, request)
  {
    hide ResourceSteps, IsPlan, ImageFree, VolumeFree, ImageUnused, VolumeUnused, AllReads, Candidate, OwnVolume;
    SliceEnds(t, i - j, i, steps, j);
    LastStepRemoves(steps, item, request, j);
    PlannedReasons(run, key, config, item);
  }

  lemma SliceEnds(t: seq<Event>, a: nat, i: nat, s: seq<Event>, j: nat)
    requires a == i - j && i < |t| && j < |s| && t[a..i + 1] == s[..j + 1]
    ensures t[i] == s[j] && t[a..i] == s[..j]
  {
    assert t[i] == t[a..i + 1][j];
    assert t[a..i] == t[a..i + 1][..j];
  }

  lemma RemovalSteps(run: Run, key: string, request: Request, config: Config)
    requires Lawful(run, key, request, config)
    ensures |run.resources| <= |run.plan.items|
    ensures forall k :: 0 <= k < |run.resources| ==> ResourceSteps(run.resources[k], run.plan.items[k], request)
    ensures run.resources != [] ==> IsPlan(run.plan, run.snap, key, config)
  {
  }

  lemma PlannedReasons(run: Run, key: string, config: Config, item: Item)
    requires IsPlan(run.plan, run.snap, key, config) && item in run.plan.items && item.reason == ""
    ensures item.kind == "image" ==>
      exists k: nat ::
        && OnlyFileOf(run.snap.files, key, k) && ImageFree(item.id, run.snap, run.snap.files[k])
        && Candidate(item.id, run.snap, run.snap.files[k])
    ensures item.kind == "volume" ==> OwnVolume(item.id, run.snap.resources.volumes, key)
    ensures item.kind == "volume" ==>
      exists k: nat :: OnlyFileOf(run.snap.files, key, k) && VolumeFree(item.id, run.snap, run.snap.files[k])
  {
    var k: nat :| OnlyFileOf(run.snap.files, key, k) && IsPlanFor(run.plan, run.snap, run.snap.files[k], config);
    PlanListsExactly(run.plan, run.snap, run.snap.files[k], config);
    hide IsPlan, IsPlanFor, Candidate, OwnVolume, ImageFree, VolumeFree, Titled;
  }

  lemma {:induction false} StepsOfItems(items: seq<Item>, e: Event)
    requires e in AllContainerSteps(items)
    ensures e.StopContainer? || e.Remove?
    ensures exists item :: item in items && item.kind == "container" && item.id == e.id
  {
    var rest, last := items[..|items| - 1], items[|items| - 1];
    if e in AllContainerSteps(rest) {
      StepsOfItems(rest, e);
      var item :| item in rest && item.kind == "container" && item.id == e.id;
      assert item in items;
    } else {
      assert e in ContainerSteps(last);
      assert last in items;
    }
  }

  lemma ContainerWorkAt(run: Run, key: string, request: Request, config: Config, i: nat)
    requires Lawful(run, key, request, config) && i < |Events(run)|
    ensures !IsRead(Events(run)[i]) && Rank(Events(run)[i]) == 3 ==> Events(run)[i] in run.containers && run.stage >= 3
  {
    if !IsRead(Events(run)[i]) && Rank(Events(run)[i]) == 3 {
      EventsByStage(run);
      StartRanks(run, key, request, config);
      TargetRanks(run, key, request, config);
      TailRanks(run, key, request, config);
      AvoidsConcat(run.replan, run.target, 3);
      AvoidsConcat(run.replan + run.target, Tail(run), 3);
      var m := InMiddle(Start(run), run.containers, run.replan + run.target + Tail(run), 3, i);
    }
  }

  lemma ContainerStepPlanned(run: Run, e: Event)
    requires LawfulContainers(run) && e in run.containers
    ensures (e.StopContainer? || e.Remove?)
    ensures exists item :: item in run.plan.items && item.kind == "container" && item.id == e.id
  {
    hide AllContainerSteps, ContainerSteps;
    var full := AllContainerSteps(run.plan.items);
    if run.stage == 3 {
      var n :| 0 <= n < |full| && !IsRead(full[n]) && run.containers == full[..n] + [AsFailed(full[n])];
      var step := if e in full[..n] then e else full[n];
      assert step in full;
      StepsOfItems(run.plan.items, step);
    } else {
      StepsOfItems(run.plan.items, e);
    }
  }

  /** The container is labelled with the project and belongs to its directory and file. */
  ghost predicate OwnContainer(id: string, plan: Plan, snap: Snapshot, key: string, config: Config) {
    var cs := snap.resources.containers;
    exists c :: c in cs && c.id == id && c.project == key
      && var mounts := MapperOf(cs, config.hostname).mounts;
      Belongs(c, config.hostname, mounts, Host(mounts, plan.directory), Host(mounts, plan.file))
  }

  ghost predicate ContainerStepIsOwn(e: Event, run: Run, key: string, config: Config) {
    (e.StopContainer? || e.Remove?) && OwnContainer(e.id, run.plan, run.snap, key, config)
  }

  ghost predicate OnContainer(e: Event) {
    e.StopContainer? || (e.Remove? && e.kind == "container")
  }

  /** The only containers stopped or removed are those the confirmed plan was computed from. */
  lemma OnlyOwnContainers(run: Run, key: string, request: Request, config: Config)
    requires Lawful(run, key, request, config)
    ensures forall i :: 0 <= i < |Events(run)| && OnContainer(Events(run)[i]) ==>
              ContainerStepIsOwn(Events(run)[i], run, key, config)
  {
    hide Events, Belongs, LawfulReplan, LawfulTarget, LawfulResources, LawfulContainers;
    forall i | 0 <= i < |Events(run)| && OnContainer(Events(run)[i])
      ensures ContainerStepIsOwn(Events(run)[i], run, key, config)
    {
      ContainerWorkAt(run, key, request, config, i);
      ContainerStepPlanned(run, Events(run)[i]);
      var item :| item in run.plan.items && item.kind == "container" && item.id == Events(run)[i].id;
      PlannedContainers(run.plan, run.snap, key, config, item);
    }
  }

  lemma PlannedContainers(plan: Plan, snap: Snapshot, key: string, config: Config, item: Item)
    requires IsPlan(plan, snap, key, config) && item in plan.items && item.kind == "container"
    ensures OwnContainer(item.id, plan, snap, key, config)
  {
    var k: nat :| OnlyFileOf(snap.files, key, k) && IsPlanFor(plan, snap, snap.files[k], config);
    PlanListsExactly(plan, snap, snap.files[k], config);
    assert ContainerListed(item, snap.resources.containers, key);
    hide Belongs, ListsExactly, DirectoryBlock, ItemBag, RetainedBag;
  }

  /** The directory belongs to the project alone, as far as this reading goes. */
  ghost predicate OwnedAtReading(snap: Snapshot, plan: Plan, key: string, config: Config) {
    exists k: nat :: OnlyFileOf(snap.files, key, k) && plan.directory == snap.files[k].workingDir
      && var mapper := MapperOf(snap.resources.containers, config.hostname);
      Owned(snap, snap.files[k], config, mapper, Host(mapper.mounts, plan.directory))
  }

  /** What comes directly before the removal of the file or the directory: the second planning, which
      confirms the first, and a last look at the very path that goes. */
  ghost predicate TargetRemovalIsOwned(t: seq<Event>, i: nat, run: Run, key: string, request: Request, config: Config)
    requires i < |t|
  {
    && var n := |run.replan|;
    && i >= n + 1 && t[i - 1 - n..i - 1] == run.replan
    && PlannedFrom(run.replan, run.second, run.secondSnap, key, config) && Confirms(run.second, run.plan, request)
    && if t[i].RemoveFile? then
         && !request.directory && t[i].target == run.plan.file
         && t[i - 1] == ResolveFile(run.plan.file, Some(run.plan.file))
       else
         && request.directory && t[i].RemoveDirectory? && t[i].target == Clean(run.plan.directory)
         && run.replan == PlanReads(run.secondSnap, run.plan.directory, true)
         && t[i - 1].ReadProbe? && t[i - 1].directory == run.plan.directory
         && RealProjectDirectory(config.roots, run.plan.directory, t[i - 1].probe)
         && OwnedAtReading(run.secondSnap, run.second, key, config)
  }

  /** A directory is removed only if the user asked for it and the planning done after the containers
      were gone, directly followed by a last look at the directory itself, finds that nobody else has
      anything in it; a file is removed only at the planned path. */
  lemma OnlyOwnedDirectory(run: Run, key: string, request: Request, config: Config)
    requires Lawful(run, key, request, config)
    ensures forall i :: 0 <= i < |Events(run)| && (Events(run)[i].RemoveDirectory? || Events(run)[i].RemoveFile?) ==>
              TargetRemovalIsOwned(Events(run), i, run, key, request, config)
  {
    hide Lawful, TargetRemovalIsOwned, Events;
    forall i | 0 <= i < |Events(run)| && (Events(run)[i].RemoveDirectory? || Events(run)[i].RemoveFile?)
      ensures TargetRemovalIsOwned(Events(run), i, run, key, request, config)
    {
      OneTargetIsOwned(run, key, request, config, i);
    }
  }

  lemma OneTargetIsOwned(run: Run, key: string, request: Request, config: Config, i: nat)
    requires Lawful(run, key, request, config) && i < |Events(run)|
    ensures Rank(Events(run)[i]) == 4 ==> TargetRemovalIsOwned(Events(run), i, run, key, request, config)
  {
    hide PlannedFrom, OwnedAtReading, RealProjectDirectory, Confirms, Lawful, PlanReads, Opening, Tail, Avoids, Events;
    if Rank(Events(run)[i]) == 4 {
      EventsByStage(run);
      StartRanks(run, key, request, config);
      TailRanks(run, key, request, config);
      var m := InMiddle(Opening(run), run.target, Tail(run), 4, i);
      TargetMeans(run, key, request, config, m);
      SecondPlanningOwns(run, key, request, config);
      SliceOfMiddle(Opening(run), run.target, Tail(run), 0, 1);
      assert Events(run)[i - 1] == run.target[0];
      EndOfOpening(run);
    }
  }

  lemma EndOfOpening(run: Run)
    ensures var m, n := |Opening(run)|, |run.replan|; m >= n && Events(run)[m - n..m] == run.replan
  {
    EventsByStage(run);
    SliceOfMiddle(Start(run) + run.containers, run.replan, run.target + Tail(run), 0, |run.replan|);
    assert Events(run) == (Start(run) + run.containers) + run.replan + (run.target + Tail(run));
  }

  lemma TargetMeans(run: Run, key: string, request: Request, config: Config, m: nat)
    requires Lawful(run, key, request, config)
    ensures m < |run.target| && !IsRead(run.target[m]) ==>
              && run.stage >= 5 && m == 1
              && if request.directory then
                   && run.target[1].RemoveDirectory? && run.target[1].target == Clean(run.plan.directory)
                   && run.target[0].ReadProbe? && run.target[0].directory == run.plan.directory
                   && RealProjectDirectory(config.roots, run.plan.directory, run.target[0].probe)
                 else
                   && run.target[1].RemoveFile? && run.target[1].target == run.plan.file
                   && run.target[0] == ResolveFile(run.plan.file, Some(run.plan.file))
  {
    hide ResourceSteps, PlannedFrom, AllContainerSteps, CutShort, RemovalDirectory, RealProjectDirectory, BackupSteps;
    if m < |run.target| && !IsRead(run.target[m]) && request.directory {
      RemovalDirectoryMeans(config.roots, run.plan.directory, run.target[0].probe);
    }
  }

  lemma SecondPlanningOwns(run: Run, key: string, request: Request, config: Config)
    requires Lawful(run, key, request, config)
    ensures run.stage >= 5 ==>
              PlannedFrom(run.replan, run.second, run.secondSnap, key, config)
                && Confirms(run.second, run.plan, request)
    ensures run.stage >= 5 && request.directory ==>
              && run.replan == PlanReads(run.secondSnap, run.plan.directory, true)
              && OwnedAtReading(run.secondSnap, run.second, key, config)
  {
    hide ResourceSteps, AllContainerSteps, CutShort, RemovalDirectory, LawfulTarget, LawfulResources, LawfulContainers;
    hide LawfulBackup, PlanReads;
    if run.stage >= 5 && request.directory {
      var k: nat :| OnlyFileOf(run.secondSnap.files, key, k)
        && IsPlanFor(run.second, run.secondSnap, run.secondSnap.files[k], config);
      UnblockedMeansOwned(run.secondSnap, run.secondSnap.files[k], config,
        MapperOf(run.secondSnap.resources.containers, config.hostname), run.second.hostDirectory);
    }
  }

  // ----- what must have happened before ----------------------------------------------------------------

  /** Before this point the deletion was put on record, and the Compose file was read and written to the
      backup with what was read. */
  ghost predicate BackedUp(t: seq<Event>, i: nat, plan: Plan, request: Request)
    requires i < |t|
  {
    exists a, b, c :: 0 <= a < b < c < i
      && t[a] == Audit("started", true)
      && t[b].ReadSource? && t[b].file == plan.file && t[b].ok
      && var name := if plan.file == [] then "/" else plan.file[|plan.file| - 1];
      t[c] == WriteBackup(request.token, name, t[b].data, true)
  }

  /** Before this point the file or the directory was removed. */
  ghost predicate TargetGone(t: seq<Event>, i: nat, plan: Plan, request: Request)
    requires i < |t|
  {
    exists j :: 0 <= j < i
      && t[j] == if request.directory then RemoveDirectory(Clean(plan.directory), true) else RemoveFile(plan.file, true)
  }

  lemma PastStart(run: Run, key: string, request: Request, config: Config, i: nat)
    requires Lawful(run, key, request, config) && i < |Events(run)|
    ensures !IsRead(Events(run)[i]) && 3 <= Rank(Events(run)[i]) <= 5 ==> run.stage >= 3 && i >= |Start(run)|
  {
    hide Lawful, Events, Start, Opening, Tail, Avoids, Ranked;
    EventsByStage(run);
    StartRanks(run, key, request, config);
    NothingAfterStart(run, key, request, config);
    StartOpens(run);
    NotInOpening(Events(run), Start(run), Opening(run), i);
    if run.stage < 3 && i >= |Start(run)| {
      OnlyClosingFollows(Start(run), run.closing, i);
    }
  }

  lemma StartOpens(run: Run)
    ensures Start(run) <= Opening(run) <= Events(run)
  {
    EventsByStage(run);
  }

  lemma NotInOpening(t: seq<Event>, start: seq<Event>, opening: seq<Event>, i: nat)
    requires i < |t| && start <= opening <= t
    requires Avoids(start, 3) && Avoids(opening, 4) && Avoids(opening, 5)
    ensures !IsRead(t[i]) && 3 <= Rank(t[i]) <= 5 ==> i >= |start|
  {
    assert i < |start| ==> t[i] == start[i] == opening[i];
  }

  lemma OnlyClosingFollows(start: seq<Event>, closing: seq<Event>, i: nat)
    requires |start| <= i < |start + closing| && Ranked(closing, 6)
    ensures !IsRead((start + closing)[i]) ==> Rank((start + closing)[i]) == 6
  {
    assert (start + closing)[i] == closing[i - |start|];
  }

  lemma NothingAfterStart(run: Run, key: string, request: Request, config: Config)
    requires Lawful(run, key, request, config)
    ensures run.stage < 3 ==> Events(run) == Start(run) + run.closing
    ensures Ranked(run.closing, 6)
  {
    hide PlannedFrom, BackupSteps, ResourceSteps;
  }

  lemma BackupDone(run: Run, key: string, request: Request, config: Config)
    requires Lawful(run, key, request, config)
    ensures run.stage >= 3 ==>
              && run.audit == [Audit("started", true)] && |run.backup| == 2
              && run.backup[0].ReadSource? && run.backup[0].file == run.plan.file && run.backup[0].ok
              && run.backup[1] == WriteBackup(request.token, BaseName(run.plan.file), run.backup[0].data, true)
  {
    hide PlannedFrom, ResourceSteps, TargetSteps, LawfulReplan;
  }

  /** The event stops or removes something. */
  ghost predicate Changes(e: Event) {
    e.StopContainer? || e.Remove? || e.RemoveDirectory? || e.RemoveFile?
  }

  /** Nothing is stopped or removed without a record and a backup of exactly the file that was read. */
  lemma EffectsAreBackedUp(run: Run, key: string, request: Request, config: Config)
    requires Lawful(run, key, request, config)
    ensures forall i :: 0 <= i < |Events(run)| && Changes(Events(run)[i]) ==>
              BackedUp(Events(run), i, run.plan, request)
  {
    hide Lawful, BackedUp;
    EventsByStage(run);
    BackupDone(run, key, request, config);
    hide Events;
    forall i | 0 <= i < |Events(run)| && Changes(Events(run)[i])
      ensures BackedUp(Events(run), i, run.plan, request)
    {
      PastStart(run, key, request, config, i);
      BackedUpAt(Events(run), run.admission, run.audit, run.backup, i, run.plan, request);
    }
  }

  lemma BackedUpAt(t: seq<Event>, admission: seq<Event>, audit: seq<Event>, backup: seq<Event>, i: nat, plan: Plan,
                   request: Request)
    requires |admission| + 3 <= i < |t| && admission + audit + backup <= t
    requires audit == [Audit("started", true)] && |backup| == 2
    requires backup[0].ReadSource? && backup[0].file == plan.file && backup[0].ok
    requires backup[1] == WriteBackup(request.token, BaseName(plan.file), backup[0].data, true)
    ensures BackedUp(t, i, plan, request)
  {
    var a := |admission|;
    var start := admission + audit + backup;
    assert t[a] == start[a] && t[a + 1] == start[a + 1] && t[a + 2] == start[a + 2];
  }

  /** No image and no volume is removed before the file or the directory is gone. */
  lemma ResourcesGoLast(run: Run, key: string, request: Request, config: Config)
    requires Lawful(run, key, request, config)
    ensures forall i :: 0 <= i < |Events(run)| && Events(run)[i].Remove? && Events(run)[i].kind != "container" ==>
                TargetGone(Events(run), i, run.plan, request)
  {
    hide Lawful, TargetGone;
    EventsByStage(run);
    AroundResources(run, key, request, config);
    hide Events, Opening, Start, Tail;
    forall i | 0 <= i < |Events(run)| && Events(run)[i].Remove? && Events(run)[i].kind != "container"
      ensures TargetGone(Events(run), i, run.plan, request)
    {
      var m := InMiddle(Opening(run) + run.target, Flatten(run.resources), run.closing, 5, i);
      TargetDone(run, key, request, config);
      TargetGoneAt(Events(run), Opening(run), run.target, i, run.plan, request);
    }
  }

  lemma TargetDone(run: Run, key: string, request: Request, config: Config)
    requires Lawful(run, key, request, config)
    ensures Flatten(run.resources) != [] ==>
              && |run.target| == 2
              && run.target[1] == if request.directory then RemoveDirectory(Clean(run.plan.directory), true)
                                  else RemoveFile(run.plan.file, true)
  {
    hide PlannedFrom, ResourceSteps, LawfulReplan, LawfulBackup, LawfulContainers, RemovalDirectory;
  }

  lemma TargetGoneAt(t: seq<Event>, opening: seq<Event>, target: seq<Event>, i: nat, plan: Plan, request: Request)
    requires |opening| + 2 <= i < |t| && opening + target <= t && |target| == 2
    requires target[1] ==
                 if request.directory then RemoveDirectory(Clean(plan.directory), true) else RemoveFile(plan.file, true)
    ensures TargetGone(t, i, plan, request)
  {
    assert t[|opening| + 1] == (opening + target)[|opening| + 1];
  }
}
