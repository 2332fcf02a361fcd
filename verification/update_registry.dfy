/** The table of update tasks. Every operation runs under one mutex and is one atomic step. */
module UpdateRegistry {

  datatype Status = Queued | Running | Success | Failed

  datatype Task = Task(id: string, project: string, status: Status, progress: int, output: seq<string>, created: int)

  type Tasks = map<string, Task>

  const MAX_TASKS := 100

  const MAX_LINES := 300

  predicate Unfinished(task: Task) {
    task.status == Queued || task.status == Running
  }

  function LastLines(lines: seq<string>): seq<string> {
    if |lines| > MAX_LINES then lines[|lines| - MAX_LINES..] else lines
  }

  /** `kept` is the end of `all`, of three hundred lines or of all there are. */
  ghost predicate IsTail(kept: seq<string>, all: seq<string>) {
    |kept| == (if |all| < 300 then |all| else 300) && all[|all| - |kept|..] == kept
  }

  lemma LastLinesAreTail(lines: seq<string>)
    ensures IsTail(LastLines(lines), lines)
  {
  }

  /** One finished task, none older, makes room when the table is full. */
  predicate Pruned(before: Tasks, after: Tasks) {
    || (after == before && (|before| < MAX_TASKS || forall id | id in before :: Unfinished(before[id])))
    || (|before| >= MAX_TASKS && exists id | id in before :: IsOldestFinished(before, id) && after == before - {id})
  }

  predicate IsOldestFinished(tasks: Tasks, id: string) {
    && id in tasks && !Unfinished(tasks[id])
    && forall other | other in tasks && !Unfinished(tasks[other]) :: tasks[id].created <= tasks[other].created
  }

  /** Pruning never drops an unfinished task, changes none, and leaves room unless every task is
      unfinished. */
  lemma PruningKeepsUnfinished(before: Tasks, after: Tasks)
    requires Pruned(before, after)
    ensures forall id :: id in after ==> id in before && after[id] == before[id]
    ensures forall id :: id in before && Unfinished(before[id]) ==> id in after
    ensures |before| < 100 ==> after == before
    ensures forall gone :: gone in before && gone !in after ==>
              && before[gone].status in {Success, Failed}
              && forall other :: other in before && before[other].status in {Success, Failed} ==>
                   before[gone].created <= before[other].created
    ensures |after| <= |before|
    ensures |after| < 100 || |after| < |before| ||
            forall id :: id in before ==> before[id].status == Queued || before[id].status == Running
  {
    if after != before {
      var gone :| gone in before && after == before - {gone};
      assert after.Keys == before.Keys - {gone};
      assert |after.Keys| == |after| && |before.Keys| == |before|;
    }
  }

  function SetTask(tasks: Tasks, id: string, status: Status, progress: int): Tasks {
    if id in tasks then tasks[id := tasks[id].(status := status, progress := progress)] else tasks
  }

  /** Nothing but the status and the progress of this one task is set, and they are if it is in the table. */
  ghost predicate OnlyProgress(before: Tasks, after: Tasks, id: string, status: Status, progress: int) {
    && after.Keys == before.Keys
    && (forall x :: x in after && x != id ==> after[x] == before[x])
    && (id in before ==>
          && after[id].status == status && after[id].progress == progress && after[id].id == before[id].id
          && after[id].project == before[id].project && after[id].output == before[id].output
          && after[id].created == before[id].created)
  }

  function AppendLine(tasks: Tasks, id: string, line: string): Tasks {
    if line != "" && id in tasks then tasks[id := tasks[id].(output := LastLines(tasks[id].output + [line]))] else tasks
  }

  /** Every task is filed under its own identifier. */
  ghost predicate Filed(tasks: Tasks) {
    forall id :: id in tasks ==> tasks[id].id == id
  }

  class Registry {
    var updateTasks: Tasks
    var activeUpdates: map<string, string>

    constructor ()
      ensures updateTasks == map[] && activeUpdates == map[]
    {
      updateTasks, activeUpdates := map[], map[];
    }

    method PruneUpdateTasks()
      requires Filed(updateTasks)
      modifies this`updateTasks
      ensures Pruned(old(updateTasks), updateTasks)
    {
      if |updateTasks| < MAX_TASKS {
        return;
      }
      var oldest: Task, found := Task("", "", Queued, 0, [], 0), false;
      var rest := updateTasks.Keys;
      while rest != {}
        invariant rest <= updateTasks.Keys && updateTasks == old(updateTasks)
        invariant found ==> oldest.id in updateTasks && updateTasks[oldest.id] == oldest && !Unfinished(oldest)
        invariant !found ==> forall id :: id in updateTasks && id !in rest ==> Unfinished(updateTasks[id])
        invariant found ==> forall id :: id in updateTasks && id !in rest && !Unfinished(updateTasks[id]) ==>
                    oldest.created <= updateTasks[id].created
        decreases |rest|
      {
        var id :| id in rest;
        var task := updateTasks[id];
        rest := rest - {id};
        if Unfinished(task) {
          continue;
        }
        if !found || task.created < oldest.created {
          oldest, found := task, true;
        }
      }
      if found {
        assert IsOldestFinished(updateTasks, oldest.id);
        updateTasks := updateTasks - {oldest.id};
      }
    }

    /** The critical section that starts a task; refused while the project has an active one. */
    method Begin(id: string, key: string, now: int) returns (started: bool)
      requires Filed(updateTasks)
      modifies this
      ensures started <==> key !in old(activeUpdates)
      ensures !started ==> updateTasks == old(updateTasks) && activeUpdates == old(activeUpdates)
      ensures started ==> activeUpdates == old(activeUpdates)[key := id]
      ensures started ==>
                  exists pruned :: Pruned(old(updateTasks), pruned)
                    && updateTasks == pruned[id := Task(id, key, Queued, 0, [], now)]
    {
      if key in activeUpdates {
        return false;
      }
      PruneUpdateTasks();
      updateTasks := updateTasks[id := Task(id, key, Queued, 0, [], now)];
      activeUpdates := activeUpdates[key := id];
      started := true;
    }

    method SetUpdateTask(id: string, status: Status, progress: int)
      modifies this`updateTasks
      ensures updateTasks == SetTask(old(updateTasks), id, status, progress)
      ensures OnlyProgress(old(updateTasks), updateTasks, id, status, progress)
    {
      if id in updateTasks {
        updateTasks := updateTasks[id := updateTasks[id].(status := status, progress := progress)];
      }
    }

    method FinishUpdateTask(id: string, key: string, status: Status, progress: int)
      modifies this
      ensures updateTasks == SetTask(old(updateTasks), id, status, progress)
      ensures OnlyProgress(old(updateTasks), updateTasks, id, status, progress)
      ensures activeUpdates == old(activeUpdates) - {key}
    {
      if id in updateTasks {
        updateTasks := updateTasks[id := updateTasks[id].(status := status, progress := progress)];
      }
      activeUpdates := activeUpdates - {key};
    }

    /** `line` is already cleaned of control sequences and secrets. */
    method AppendUpdateTaskOutput(id: string, line: string)
      modifies this`updateTasks
      ensures updateTasks == AppendLine(old(updateTasks), id, line)
      ensures line == "" || id !in old(updateTasks) ==> updateTasks == old(updateTasks)
      ensures updateTasks.Keys == old(updateTasks).Keys
      ensures forall x :: x in updateTasks && x != id ==> updateTasks[x] == old(updateTasks)[x]
      ensures line != "" && id in old(updateTasks) ==>
                  && updateTasks[id] == old(updateTasks)[id].(output := updateTasks[id].output)
                  && updateTasks[id].output != [] && updateTasks[id].output[|updateTasks[id].output| - 1] == line
                  && IsTail(updateTasks[id].output, old(updateTasks)[id].output + [line])
    {
      if line == "" {
        return;
      }
      if id in updateTasks {
        var task := updateTasks[id];
        var output := task.output + [line];
        if |output| > MAX_LINES {
          output := output[|output| - MAX_LINES..];
        }
        updateTasks := updateTasks[id := task.(output := output)];
      }
    }
  }
}
