/** What the containers and the file of a project undergo in a lawful run, told by the events alone. */
module RemovalFacts {
  import opened Paths
  import opened Docker
  import opened Discovery
  import opened RemovalPlan
  import opened RemovalItems
  import opened PlanContents
  import opened RemovalTrace

  // ----- containers are stopped before they are removed --------------------------------------------

  /** The container runs, restarts or is paused, so that it must be stopped first. */
  ghost predicate MustStop(item: Item) {
    item.state in {"running", "restarting", "paused"}
  }

  /** The step stops a listed container that must be stopped, or removes a listed container directly
      after it was stopped if and only if it must be stopped. */
  ghost predicate StepIsRight(e: Event, before: seq<Event>, items: seq<Item>) {
    && (e.StopContainer? ==>
          exists item :: item in items && item.kind == "container" && item.id == e.id && MustStop(item))
    && (e.Remove? ==> e.kind == "container")
    && (e.Remove? ==>
          exists item :: item in items && item.kind == "container" && item.id == e.id
            && (MustStop(item) <==> before != [] && before[|before| - 1] == StopContainer(e.id, true)))
  }

  lemma {:induction false} StepsAreRight(items: seq<Item>, m: nat)
    requires m < |AllContainerSteps(items)|
    ensures var full := AllContainerSteps(items);
            (full[m].StopContainer? || full[m].Remove?) && full[m].ok && StepIsRight(full[m], full[..m], items)
    ensures AllContainerSteps(items)[|AllContainerSteps(items)| - 1].Remove?
  {
    hide ContainerSteps, StepIsRight;
    var rest, last := items[..|items| - 1], items[|items| - 1];
    var head, steps := AllContainerSteps(rest), ContainerSteps(last);
    assert items == rest + [last] && AllContainerSteps(items) == head + steps;
    if head != [] { StepsAreRight(rest, |head| - 1); }
    if steps != [] { LastStepIsRight(head, last, |steps| - 1); }
    hide AllContainerSteps;
    if m < |head| {
      StepsAreRight(rest, m);
      assert (head + steps)[..m] == head[..m] && (head + steps)[m] == head[m];
      MoreItems(head[m], head[..m], rest, last);
    } else {
      LastStepIsRight(head, last, m - |head|);
      assert (head + steps)[..m] == head + steps[..m - |head|] && (head + steps)[m] == steps[m - |head|];
      FewerItems(steps[m - |head|], head + steps[..m - |head|], rest, last);
    }
  }

  lemma MoreItems(e: Event, before: seq<Event>, items: seq<Item>, item: Item)
    requires StepIsRight(e, before, items)
    ensures StepIsRight(e, before, items + [item])
  {
    assert forall x :: x in items ==> x in items + [item];
    hide MustStop;
  }

  lemma FewerItems(e: Event, before: seq<Event>, items: seq<Item>, item: Item)
    requires StepIsRight(e, before, [item])
    ensures StepIsRight(e, before, items + [item])
  {
    assert item in items + [item];
    hide MustStop;
  }

  lemma LastStepIsRight(head: seq<Event>, item: Item, m: nat)
    requires m < |ContainerSteps(item)| && (head != [] ==> head[|head| - 1].Remove?)
    ensures var steps := ContainerSteps(item);
            && (steps[m].StopContainer? || steps[m].Remove?) && steps[m].ok
            && StepIsRight(steps[m], head + steps[..m], [item])
    ensures ContainerSteps(item)[|ContainerSteps(item)| - 1].Remove?
  {
    assert item in [item];
  }

  lemma {:induction false} EveryContainerGoes(items: seq<Item>, item: Item)
    requires item in items && item.kind == "container"
    ensures Remove("container", item.id, true) in AllContainerSteps(items)
  {
    var rest, last := items[..|items| - 1], items[|items| - 1];
    assert items == rest + [last];
    if item == last {
      assert Remove("container", item.id, true) in ContainerSteps(last);
    } else {
      EveryContainerGoes(rest, item);
    }
  }

  /** Also where the steps were cut short. */
  lemma RunStepIsRight(run: Run, m: nat)
    requires LawfulContainers(run) && m < |run.containers|
    ensures StepIsRight(run.containers[m], run.containers[..m], run.plan.items)
  {
    var full := AllContainerSteps(run.plan.items);
    hide AllContainerSteps, StepIsRight;
    if run.stage == 3 {
      var n :| 0 <= n < |full| && !IsRead(full[n]) && run.containers == full[..n] + [AsFailed(full[n])];
      StepsAreRight(run.plan.items, m);
      assert run.containers[..m] == full[..m];
      FailedStepIsRight(full[m], full[..m], run.plan.items);
    } else {
      StepsAreRight(run.plan.items, m);
    }
  }

  lemma FailedStepIsRight(e: Event, before: seq<Event>, items: seq<Item>)
    requires StepIsRight(e, before, items) && !IsRead(e)
    ensures StepIsRight(AsFailed(e), before, items)
  {
  }

  lemma EndOfStart(run: Run, key: string, request: Request, config: Config)
    requires Lawful(run, key, request, config)
    ensures Start(run) != [] ==> !Start(run)[|Start(run)| - 1].StopContainer?
  {
    StartRanks(run, key, request, config);
  }

  lemma StepBehind(e: Event, start: seq<Event>, before: seq<Event>, items: seq<Item>)
    requires StepIsRight(e, before, items) && (start != [] ==> !start[|start| - 1].StopContainer?)
    ensures StepIsRight(e, start + before, items)
  {
    assert before != [] ==> (start + before)[|start + before| - 1] == before[|before| - 1];
  }

  /** In every run and whatever fails: a container is stopped if and only if it runs, restarts or is
      paused, directly before it is removed; and when the run gets past the containers, every listed one
      has been removed. */
  lemma ContainersStopFirst(run: Run, key: string, request: Request, config: Config)
    requires Lawful(run, key, request, config)
    ensures forall i :: 0 <= i < |Events(run)| ==>
              Events(run)[i].StopContainer? || RemovesContainer(Events(run)[i]) ==>
              StepIsRight(Events(run)[i], Events(run)[..i], run.plan.items)
    ensures run.stage >= 4 ==>
              forall item :: item in run.plan.items && item.kind == "container" ==>
                Remove("container", item.id, true) in Events(run)
  {
    hide Lawful, StepIsRight, Avoids, Events, Start, Tail, LawfulContainers, AllContainerSteps;
    EventsByStage(run);
    ContainersLawful(run, key, request, config);
    forall i | 0 <= i < |Events(run)| && (Events(run)[i].StopContainer? || RemovesContainer(Events(run)[i]))
      ensures StepIsRight(Events(run)[i], Events(run)[..i], run.plan.items)
    {
      EventIsRight(run, key, request, config, i);
    }
    if run.stage >= 4 {
      forall item | item in run.plan.items && item.kind == "container"
        ensures Remove("container", item.id, true) in Events(run)
      {
        EveryContainerGoes(run.plan.items, item);
      }
    }
  }

  lemma EventIsRight(run: Run, key: string, request: Request, config: Config, i: nat)
    requires Lawful(run, key, request, config) && i < |Events(run)|
    requires Events(run)[i].StopContainer? || RemovesContainer(Events(run)[i])
    ensures StepIsRight(Events(run)[i], Events(run)[..i], run.plan.items)
  {
    hide Lawful, StepIsRight, Avoids, Events, Start, Tail, LawfulContainers;
    var start, rest := Start(run), run.replan + run.target + Tail(run);
    EventsByStage(run);
    ContainersLawful(run, key, request, config);
    AroundContainers(run, key, request, config);
    EndOfStart(run, key, request, config);
    var m := InMiddle(start, run.containers, rest, 3, i);
    RunStepIsRight(run, m);
    StepBehind(run.containers[m], start, run.containers[..m], run.plan.items);
    BeforeMiddle(start, run.containers, rest, m);
  }

  lemma BeforeMiddle(start: seq<Event>, middle: seq<Event>, rest: seq<Event>, m: nat)
    requires m <= |middle|
    ensures (start + middle + rest)[..|start| + m] == start + middle[..m]
  {
  }

  predicate RemovesContainer(e: Event) {
    e.Remove? && e.kind == "container"
  }

  lemma ContainersLawful(run: Run, key: string, request: Request, config: Config)
    requires Lawful(run, key, request, config)
    ensures LawfulContainers(run) && (run.stage >= 4 ==> run.containers == AllContainerSteps(run.plan.items))
  {
  }

  lemma AroundContainers(run: Run, key: string, request: Request, config: Config)
    requires Lawful(run, key, request, config)
    ensures Avoids(Start(run), 3) && Avoids(run.replan + run.target + Tail(run), 3)
  {
    StartRanks(run, key, request, config);
    TargetRanks(run, key, request, config);
    TailRanks(run, key, request, config);
    AvoidsConcat(run.replan, run.target, 3);
    AvoidsConcat(run.replan + run.target, Tail(run), 3);
  }

  // ----- the project is still the same when its file goes -----------------------------------------------

  /** Between the two readings the project's file has neither moved nor changed its contents, and no
      container with the project's label is left. */
  ghost predicate SameProject(plan: Plan, first: Snapshot, second: Snapshot, key: string) {
    && (exists k: nat, l: nat ::
          && OnlyFileOf(first.files, key, k) && OnlyFileOf(second.files, key, l)
          && first.files[k].file == second.files[l].file == plan.file
          && first.files[k].workingDir == second.files[l].workingDir == plan.directory
          && first.files[k].sha == second.files[l].sha)
    && forall c :: c in second.resources.containers ==> c.project != key
  }

  /** The file or the directory goes only while the project is what the user confirmed. */
  lemma TargetIsUnchanged(run: Run, key: string, request: Request, config: Config)
    requires Lawful(run, key, request, config)
    ensures run.target != [] ==> SameProject(run.plan, run.snap, run.secondSnap, key)
  {
    hide LawfulBackup, LawfulContainers, LawfulTarget, LawfulResources;
    if run.stage >= 5 {
      PlansAgree(run.plan, run.snap, run.second, run.secondSnap, key, request, config);
    } else {
      assert LawfulTarget(run, request, config);
      NoTargetYet(run, request, config);
    }
  }

  lemma NoTargetYet(run: Run, request: Request, config: Config)
    requires LawfulTarget(run, request, config) && run.stage < 5
    ensures run.target == []
  {
  }

  lemma PlansAgree(plan: Plan, snap: Snapshot, second: Plan, secondSnap: Snapshot, key: string, request: Request,
                   config: Config)
    requires IsPlan(plan, snap, key, config) && IsPlan(second, secondSnap, key, config)
    requires Confirms(second, plan, request)
    ensures SameProject(plan, snap, secondSnap, key)
  {
    hide IsPlanFor, IsPlan, ListsExactly, OnlyFileOf;
    var k := PlannedFile(plan, snap, key, config);
    var l := PlannedFile(second, secondSnap, key, config);
    NoContainerLeft(second, secondSnap, secondSnap.files[l]);
    KeyOf(secondSnap.files, key, l);
  }

  lemma KeyOf(files: seq<RemovalFile>, key: string, k: nat)
    requires OnlyFileOf(files, key, k)
    ensures k < |files| && files[k].key == key
  {
  }

  lemma PlannedFile(plan: Plan, snap: Snapshot, key: string, config: Config) returns (k: nat)
    requires IsPlan(plan, snap, key, config)
    ensures OnlyFileOf(snap.files, key, k) && k < |snap.files| && ListsExactly(plan.items, snap, snap.files[k])
    ensures plan.file == snap.files[k].file && plan.directory == snap.files[k].workingDir
    ensures plan.configSha == snap.files[k].sha
  {
    hide IsPlanFor, ListsExactly;
    k :| OnlyFileOf(snap.files, key, k) && IsPlanFor(plan, snap, snap.files[k], config);
    PlanListsExactly(plan, snap, snap.files[k], config);
    PlanOfFile(plan, snap, snap.files[k], config);
  }

  lemma PlanOfFile(plan: Plan, snap: Snapshot, target: RemovalFile, config: Config)
    requires IsPlanFor(plan, snap, target, config)
    ensures plan.file == target.file && plan.directory == target.workingDir && plan.configSha == target.sha
  {
    hide DirectoryBlock, ItemBag, RetainedBag, AllBelong;
  }

  lemma NoContainerLeft(plan: Plan, snap: Snapshot, target: RemovalFile)
    requires ListsExactly(plan.items, snap, target) && forall item :: item in plan.items ==> item.kind != "container"
    ensures forall c :: c in snap.resources.containers ==> c.project != target.key
  {
    hide ImageListed, VolumeListed, Candidate, OwnVolume;
    forall c | c in snap.resources.containers ensures c.project != target.key {
      var x := Item("container", c.id, c.names, c.state, "");
      assert c.project == target.key ==> ContainerListed(x, snap.resources.containers, target.key);
      assert x.kind == "container";
    }
  }
}
