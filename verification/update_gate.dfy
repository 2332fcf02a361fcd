/** All interleavings of the gate, the update registry and the threads that use them: gated
    operations, update starters, update runners and deletions. A state is everything they share and
    where each thread stands; a step moves one thread. */
module UpdateGate {
  import opened Sets
  import opened UpdateRegistry

  datatype RunStage =
    | Spawned             // the goroutine exists and waits for the gate
    | Locked              // inside the gate, nothing reported yet
    | Pulling
    | Applying
    | Checking
    | Failing(seen: int)  // has read its own progress and is about to report a failure with it
    | Reported            // finished, not yet out of the gate

  datatype Thread =
    | Operation(inside: bool)                             // any operation that holds the gate for reading
    | Starter(key: string, inside: bool, step: StartStep)  // StartUpdate
    | Runner(id: string, key: string, stage: RunStage)
    | Deleter(phase: DeleteStage)

  /** Before its critical section, after it with the runner still to be spawned, after that. */
  datatype StartStep = Before | Begun(id: string) | After

  datatype DeleteStage = Trying | Holding | Passed | Leaving

  datatype State = State(
    tasks: Tasks, active: map<string, string>,
    reading: set<int>, writing: set<int>,
    threads: map<int, Thread>,
    used: set<string>, log: map<string, seq<string>>, peak: nat)

  // ----- the steps ----------------------------------------------------------------------------------

  predicate Fresh(thread: Thread) {
    thread == Operation(false) || thread == Deleter(Trying)
      || (thread.Starter? && !thread.inside && thread.step == Before)
  }

  predicate Arrive(s: State, s': State, t: int, thread: Thread) {
    t !in s.threads && Fresh(thread) && s' == s.(threads := s.threads[t := thread])
  }

  /** A thread without locks and without duties ends. */
  predicate Depart(s: State, s': State, t: int) {
    && t in s.threads && Fresh(s.threads[t])
    && s' == s.(threads := s.threads - {t})
  }

  function Entered(thread: Thread): Thread {
    match thread
    case Operation(_) => Operation(true)
    case Starter(key, _, step) => Starter(key, true, step)
    case Runner(id, key, _) => Runner(id, key, Locked)
    case Deleter(phase) => Deleter(phase)
  }

  predicate WaitsToRead(thread: Thread) {
    match thread
    case Operation(inside) => !inside
    case Starter(_, inside, _) => !inside
    case Runner(_, _, stage) => stage == Spawned
    case Deleter(_) => false
  }

  /** RLock: granted while nobody holds the gate for writing. */
  predicate ReadLock(s: State, s': State, t: int) {
    && t in s.threads && WaitsToRead(s.threads[t]) && s.writing == {}
    && s' == s.(threads := s.threads[t := Entered(s.threads[t])], reading := s.reading + {t})
  }

  predicate MayReadUnlock(thread: Thread) {
    match thread
    case Operation(inside) => inside
    case Starter(_, inside, step) => inside && !step.Begun?
    case Runner(_, _, stage) => stage == Reported
    case Deleter(_) => false
  }

  predicate ReadUnlock(s: State, s': State, t: int) {
    && t in s.threads && MayReadUnlock(s.threads[t])
    && s' == s.(threads := s.threads - {t}, reading := s.reading - {t})
  }

  /** The critical section of StartUpdate, with a new random identifier. */
  predicate Begin(s: State, s': State, t: int, id: string, now: int, pruned: Tasks) {
    && t in s.threads && s.threads[t].Starter? && s.threads[t].inside && s.threads[t].step == Before
    && s.threads[t].key !in s.active && id !in s.used && Pruned(s.tasks, pruned)
    && var key := s.threads[t].key;
    s' == s.(
      tasks := pruned[id := Task(id, key, Queued, 0, [], now)], active := s.active[key := id],
      threads := s.threads[t := Starter(key, true, Begun(id))],
      used := s.used + {id}, log := s.log[id := []],
      peak := if |s.active| + 1 > s.peak then |s.active| + 1 else s.peak)
  }

  predicate Spawn(s: State, s': State, t: int, r: int) {
    && t in s.threads && s.threads[t].Starter? && s.threads[t].step.Begun? && r !in s.threads
    && var starter := s.threads[t];
    s' == s.(threads := s.threads[t := starter.(step := After)][r := Runner(starter.step.id, starter.key, Spawned)])
  }

  /** The reports of a runner that leave it running. */
  predicate Reports(from: RunStage, to: RunStage, progress: int) {
    || (from == Locked && to == Pulling && progress == 8)
    || (from == Pulling && to == Applying && progress == 72)
    || (from == Applying && to == Checking && progress == 92)
  }

  predicate Report(s: State, s': State, t: int, to: RunStage, progress: int) {
    && t in s.threads && s.threads[t].Runner? && Reports(s.threads[t].stage, to, progress)
    && s' == s.(tasks := SetTask(s.tasks, s.threads[t].id, Running, progress),
                threads := s.threads[t := s.threads[t].(stage := to)])
  }

  predicate Output(s: State, s': State, t: int, line: string) {
    && t in s.threads && s.threads[t].Runner? && s.threads[t].stage in {Pulling, Applying} && line != ""
    && var id := s.threads[t].id;
    && id in s.log
    && s' == s.(tasks := AppendLine(s.tasks, id, line), log := s.log[id := s.log[id] + [line]])
  }

  /** Something failed: the runner reads the progress it will report. */
  predicate Fail(s: State, s': State, t: int) {
    && t in s.threads && s.threads[t].Runner? && s.threads[t].stage in {Pulling, Applying, Checking}
    && s' == s.(threads := s.threads[t := s.threads[t].(stage :=
         Failing(if s.threads[t].id in s.tasks then s.tasks[s.threads[t].id].progress else 0))])
  }

  /** How a runner may finish: with the progress it read, or after the last stage (in demonstration
      mode already while applying). */
  predicate Finishes(from: RunStage, status: Status, progress: int) {
    || (from.Failing? && status == Failed && progress == from.seen)
    || (from == Checking && status == Failed && progress == 96)
    || ((from == Checking || from == Applying) && status == Success && progress == 100)
  }

  predicate Finish(s: State, s': State, t: int, status: Status, progress: int) {
    && t in s.threads && s.threads[t].Runner? && Finishes(s.threads[t].stage, status, progress)
    && s' == s.(tasks := SetTask(s.tasks, s.threads[t].id, status, progress), active := s.active - {s.threads[t].key},
                threads := s.threads[t := s.threads[t].(stage := Reported)])
  }

  /** TryLock: succeeds only when nobody holds the gate. */
  predicate TryLock(s: State, s': State, t: int) {
    && t in s.threads && s.threads[t] == Deleter(Trying) && s.reading == {} && s.writing == {}
    && s' == s.(threads := s.threads[t := Deleter(Holding)], writing := {t})
  }

  predicate CheckActive(s: State, s': State, t: int) {
    && t in s.threads && s.threads[t] == Deleter(Holding)
    && s' == s.(threads := s.threads[t := Deleter(if |s.active| > 0 then Leaving else Passed)])
  }

  predicate Unlock(s: State, s': State, t: int) {
    && t in s.threads && s.threads[t] in {Deleter(Leaving), Deleter(Passed)}
    && s' == s.(threads := s.threads - {t}, writing := s.writing - {t})
  }

  /** One step of one thread. */
  datatype Move =
    | Arriving(thread: Thread)
    | Departing
    | ReadLocking
    | ReadUnlocking
    | Beginning(id: string, now: int, pruned: Tasks)
    | Spawning(runner: int)
    | Reporting(to: RunStage, progress: int)
    | Printing(line: string)
    | NoticingFailure
    | Finishing(status: Status, progress: int)
    | TryLocking
    | CheckingActive
    | Unlocking

  predicate StepBy(s: State, s': State, t: int, move: Move) {
    match move
    case Arriving(thread) => Arrive(s, s', t, thread)
    case Departing => Depart(s, s', t)
    case ReadLocking => ReadLock(s, s', t)
    case ReadUnlocking => ReadUnlock(s, s', t)
    case Beginning(id, now, pruned) => Begin(s, s', t, id, now, pruned)
    case Spawning(runner) => Spawn(s, s', t, runner)
    case Reporting(to, progress) => Report(s, s', t, to, progress)
    case Printing(line) => Output(s, s', t, line)
    case NoticingFailure => Fail(s, s', t)
    case Finishing(status, progress) => Finish(s, s', t, status, progress)
    case TryLocking => TryLock(s, s', t)
    case CheckingActive => CheckActive(s, s', t)
    case Unlocking => Unlock(s, s', t)
  }

  ghost predicate Step(s: State, s': State) {
    exists t, move :: StepBy(s, s', t, move)
  }

  const START := State(map[], map[], {}, {}, map[], {}, map[], 0)

  // ----- the invariant -----------------------------------------------------------------------------------

  predicate InsideForReading(thread: Thread) {
    match thread
    case Operation(inside) => inside
    case Starter(_, inside, _) => inside
    case Runner(_, _, stage) => stage != Spawned
    case Deleter(_) => false
  }

  predicate InsideForWriting(thread: Thread) {
    thread.Deleter? && thread.phase != Trying
  }

  ghost predicate GateInv(s: State) {
    && (forall t :: t in s.reading <==> t in s.threads && InsideForReading(s.threads[t]))
    && (forall t :: t in s.writing <==> t in s.threads && InsideForWriting(s.threads[t]))
    && (forall w, r :: !(w in s.writing && r in s.reading))
    && (forall t, u :: t in s.writing && u in s.writing ==> t == u)
    && (forall t :: t in s.threads && s.threads[t].Starter? && s.threads[t].step.Begun? ==> s.threads[t].inside)
  }

  /** The thread that will finish this task for this project. */
  predicate Owns(thread: Thread, id: string, key: string) {
    || (thread.Starter? && thread.step == Begun(id) && thread.key == key)
    || (thread.Runner? && thread.stage != Reported && thread.id == id && thread.key == key)
  }

  ghost predicate Duty(s: State, t: int, id: string, key: string) {
    t in s.threads && Owns(s.threads[t], id, key)
  }

  ghost predicate IsActive(s: State, id: string, key: string) {
    key in s.active && s.active[key] == id
  }

  ghost predicate IsUnfinishedOf(s: State, id: string, key: string) {
    id in s.tasks && Unfinished(s.tasks[id]) && s.tasks[id].project == key
  }

  /** Identifiers are never reused, and every task has its line log. */
  ghost predicate Known(s: State) {
    && s.log.Keys == s.used
    && forall id :: id in s.tasks ==> s.tasks[id].id == id && id in s.used && id in s.log
  }

  /** An active update is exactly an unfinished task of its project, and has exactly one thread that
      will finish it. */
  ghost predicate ActiveInv(s: State) {
    && (forall id, key :: IsActive(s, id, key) <==> IsUnfinishedOf(s, id, key))
    && (forall t, id, key :: Duty(s, t, id, key) ==> IsActive(s, id, key))
    && (forall t, u, id, key :: Duty(s, t, id, key) && Duty(s, u, id, key) ==> t == u)
    && (forall id, key :: IsActive(s, id, key) ==> exists t :: Duty(s, t, id, key))
  }

  /** Behind a deletion that has passed its check nothing is active. */
  ghost predicate PassedInv(s: State) {
    forall t :: t in s.threads && s.threads[t] == Deleter(Passed) ==> s.active == map[]
  }

  /** The progress a thread's task shows while the thread is at this stage. */
  function Expected(thread: Thread): int {
    match thread
    case Runner(_, _, Pulling) => 8
    case Runner(_, _, Applying) => 72
    case Runner(_, _, Checking) => 92
    case Runner(_, _, Failing(seen)) => seen
    case _ => 0
  }

  ghost predicate DataInv(s: State) {
    && (forall t, id, key :: Duty(s, t, id, key) && id in s.tasks ==>
          s.tasks[id].progress == Expected(s.threads[t]) <= 92)
    && (forall id :: id in s.tasks && id in s.log ==> s.tasks[id].output == LastLines(s.log[id]))
    && |s.active| <= s.peak
    && (|s.tasks| <= MAX_TASKS || |s.tasks| <= s.peak)
  }

  ghost predicate Inv(s: State) {
    GateInv(s) && Known(s) && ActiveInv(s) && PassedInv(s) && DataInv(s)
  }

  /** All threads but `t` stay as they are. */
  ghost predicate OthersSame(s: State, s': State, t: int) {
    forall u :: u != t ==>
      && (u in s.threads <==> u in s'.threads)
      && (u in s.threads && u in s'.threads ==> s.threads[u] == s'.threads[u])
  }

  lemma GateStep(s: State, s': State, t: int)
    requires GateInv(s) && OthersSame(s, s', t)
    requires forall u :: u != t ==> (u in s.reading <==> u in s'.reading) && (u in s.writing <==> u in s'.writing)
    requires t in s'.reading <==> t in s'.threads && InsideForReading(s'.threads[t])
    requires t in s'.writing <==> t in s'.threads && InsideForWriting(s'.threads[t])
    requires t in s'.reading && t !in s.reading ==> s.writing == {}
    requires t in s'.writing && t !in s.writing ==> s.writing == {} && s.reading == {}
    requires t in s'.threads && s'.threads[t].Starter? && s'.threads[t].step.Begun? ==> s'.threads[t].inside
    ensures GateInv(s')
  {
  }

  lemma GateOutside(s: State, s': State, t: int, thread: Thread)
    requires GateInv(s) && (Arrive(s, s', t, thread) || Depart(s, s', t))
    ensures GateInv(s')
  {
    GateStep(s, s', t);
  }

  lemma GateReading(s: State, s': State, t: int)
    requires GateInv(s) && (ReadLock(s, s', t) || ReadUnlock(s, s', t))
    ensures GateInv(s')
  {
    GateStep(s, s', t);
  }

  lemma GateWriting(s: State, s': State, t: int)
    requires GateInv(s) && (TryLock(s, s', t) || CheckActive(s, s', t) || Unlock(s, s', t))
    ensures GateInv(s')
  {
    GateStep(s, s', t);
  }

  /** Inside the gate a thread stays on its side of it. */
  lemma GateInside(s: State, s': State, t: int, move: Move)
    requires GateInv(s) && StepBy(s, s', t, move)
    requires move.Beginning? || move.Reporting? || move.Printing? || move.NoticingFailure? || move.Finishing?
    ensures GateInv(s')
  {
    hide Pruned, SetTask, AppendLine;
    hide Arrive, Depart, ReadLock, ReadUnlock, Spawn, TryLock, CheckActive, Unlock;
    assert t in s.threads && t in s'.threads && s'.reading == s.reading && s'.writing == s.writing;
    assert InsideForReading(s.threads[t]) && InsideForReading(s'.threads[t]);
    assert OthersSame(s, s', t);
    hide StepBy, InsideForReading;
    GateStep(s, s', t);
  }

  lemma GateKept(s: State, s': State, t: int, move: Move)
    requires GateInv(s) && StepBy(s, s', t, move)
    ensures GateInv(s')
  {
    hide GateInv, Arrive, Depart, ReadLock, ReadUnlock, Begin, Spawn;
    hide Report, Output, Fail, Finish, TryLock, CheckActive, Unlock;
    match move
    case Arriving(thread) => GateOutside(s, s', t, thread);
    case Departing => GateOutside(s, s', t, Operation(false));
    case ReadLocking => GateReading(s, s', t);
    case ReadUnlocking => GateReading(s, s', t);
    case Beginning(_, _, _) => GateInside(s, s', t, move);
    case Spawning(runner) => GateSpawn(s, s', t, runner);
    case Reporting(_, _) => GateInside(s, s', t, move);
    case Printing(_) => GateInside(s, s', t, move);
    case NoticingFailure => GateInside(s, s', t, move);
    case Finishing(_, _) => GateInside(s, s', t, move);
    case TryLocking => GateWriting(s, s', t);
    case CheckingActive => GateWriting(s, s', t);
    case Unlocking => GateWriting(s, s', t);
  }

  lemma GateSpawn(s: State, s': State, t: int, r: int)
    requires GateInv(s) && Spawn(s, s', t, r)
    ensures GateInv(s')
  {
    var mid := s.(threads := s.threads[t := s.threads[t].(step := After)]);
    GateStep(s, mid, t);
    GateStep(mid, s', r);
  }

  // ----- every step keeps the registry consistent ---------------------------------------------------

  ghost predicate DataSame(s: State, s': State) {
    s'.tasks == s.tasks && s'.active == s.active && s'.used == s.used && s'.log == s.log && s'.peak == s.peak
  }

  /** Steps that leave the shared tables alone and change no thread's duty. */
  lemma Bystander(s: State, s': State, t: int)
    requires Known(s) && ActiveInv(s) && PassedInv(s) && DataInv(s)
    requires DataSame(s, s') && OthersSame(s, s', t)
    requires forall id, key :: Duty(s, t, id, key) <==> Duty(s', t, id, key)
    requires forall id, key :: Duty(s', t, id, key) ==> Expected(s'.threads[t]) == Expected(s.threads[t])
    requires t in s'.threads && s'.threads[t] == Deleter(Passed) ==> s.active == map[]
    ensures Known(s') && ActiveInv(s') && PassedInv(s') && DataInv(s')
  {
    forall u, id, key ensures Duty(s, u, id, key) <==> Duty(s', u, id, key) {}
    forall id, key ensures IsActive(s, id, key) <==> IsActive(s', id, key) {}
  }

  ghost predicate SharedInv(s: State) {
    Known(s) && ActiveInv(s) && PassedInv(s) && DataInv(s)
  }

  /** A thread that has no duty before or after its step. */
  lemma Dutiless(s: State, s': State, t: int)
    requires SharedInv(s) && DataSame(s, s') && OthersSame(s, s', t)
    requires t in s.threads ==> forall id, key :: !Owns(s.threads[t], id, key)
    requires t in s'.threads ==> forall id, key :: !Owns(s'.threads[t], id, key)
    requires t in s'.threads && s'.threads[t] == Deleter(Passed) ==> s.active == map[]
    ensures SharedInv(s')
  {
    Bystander(s, s', t);
  }

  lemma OutsideStep(s: State, s': State, t: int, thread: Thread)
    requires SharedInv(s) && (Arrive(s, s', t, thread) || Depart(s, s', t))
    ensures SharedInv(s')
  {
    hide SharedInv;
    Dutiless(s, s', t);
  }

  lemma LockStep(s: State, s': State, t: int)
    requires SharedInv(s) && ReadLock(s, s', t)
    ensures SharedInv(s')
  {
    Bystander(s, s', t);
  }

  lemma UnlockStep(s: State, s': State, t: int)
    requires SharedInv(s) && (ReadUnlock(s, s', t) || Unlock(s, s', t) || TryLock(s, s', t))
    ensures SharedInv(s')
  {
    hide SharedInv;
    Dutiless(s, s', t);
  }

  lemma CheckStep(s: State, s': State, t: int)
    requires SharedInv(s) && CheckActive(s, s', t)
    ensures SharedInv(s')
  {
    hide SharedInv;
    assert |s.active| == 0 ==> s.active == map[];
    Dutiless(s, s', t);
  }

  lemma FailStep(s: State, s': State, t: int)
    requires SharedInv(s) && Fail(s, s', t)
    ensures SharedInv(s')
  {
    var id, key := s.threads[t].id, s.threads[t].key;
    assert Duty(s, t, id, key);
    assert IsActive(s, id, key);
    Bystander(s, s', t);
  }

  lemma SpawnStep(s: State, s': State, t: int, r: int)
    requires SharedInv(s) && Spawn(s, s', t, r)
    ensures SharedInv(s')
  {
    var own, key := s.threads[t].step.id, s.threads[t].key;
    forall u, id, k
      ensures Duty(s', u, id, k) <==> (if u == r then id == own && k == key else u != t && Duty(s, u, id, k))
    {
    }
    assert Duty(s, t, own, key);
    forall id, k ensures IsActive(s, id, k) <==> IsActive(s', id, k) {}
    forall id, k | IsActive(s', id, k) ensures exists u :: Duty(s', u, id, k) {
      var u :| Duty(s, u, id, k);
      assert Duty(s', if u == t then r else u, id, k);
    }
  }

  /** While a thread is inside the gate for reading, no deletion has passed its check. */
  lemma NobodyPassed(s: State, t: int)
    requires GateInv(s) && t in s.threads && InsideForReading(s.threads[t])
    ensures forall u :: u in s.threads ==> s.threads[u] != Deleter(Passed)
  {
    assert t in s.reading;
    assert forall u :: u in s.threads && s.threads[u] == Deleter(Passed) ==> u in s.writing;
  }

  /** A step of the thread in charge that changes only its own, still unfinished, task. */
  lemma OwnTaskStep(s: State, s': State, t: int, id: string, key: string)
    requires SharedInv(s) && OthersSame(s, s', t) && Duty(s, t, id, key) && Duty(s', t, id, key)
    requires s'.active == s.active && s'.used == s.used && s'.peak == s.peak && s'.tasks.Keys == s.tasks.Keys
    requires s'.log.Keys == s.log.Keys
    requires forall x :: x in s.tasks && x != id ==> s'.tasks[x] == s.tasks[x] && s'.log[x] == s.log[x]
    requires id in s.tasks ==>
      && Unfinished(s'.tasks[id]) && s'.tasks[id].id == id && s'.tasks[id].project == s.tasks[id].project
      && s'.tasks[id].progress == Expected(s'.threads[t]) <= 92
      && s'.tasks[id].output == LastLines(s'.log[id])
    requires s'.threads[t] != Deleter(Passed)
    ensures SharedInv(s')
  {
    assert IsActive(s, id, key);
    forall u, x, k ensures Duty(s, u, x, k) <==> Duty(s', u, x, k) {}
    forall x, k ensures IsActive(s, x, k) <==> IsActive(s', x, k) {}
    forall u, x, k | Duty(s', u, x, k) && x in s'.tasks
      ensures s'.tasks[x].progress == Expected(s'.threads[u]) <= 92
    {
      if x == id {
        assert IsActive(s, x, k);
        assert u == t;
      }
    }
    assert |s'.tasks.Keys| == |s.tasks.Keys|;
  }

  lemma ReportStep(s: State, s': State, t: int, to: RunStage, progress: int)
    requires SharedInv(s) && Report(s, s', t, to, progress)
    ensures SharedInv(s')
  {
    hide LastLines;
    var id, key := s.threads[t].id, s.threads[t].key;
    assert Duty(s, t, id, key);
    assert IsActive(s, id, key);
    OwnTaskStep(s, s', t, id, key);
  }

  lemma LastLinesAppend(lines: seq<string>, line: string)
    ensures LastLines(LastLines(lines) + [line]) == LastLines(lines + [line])
  {
  }

  lemma OutputStep(s: State, s': State, t: int, line: string)
    requires SharedInv(s) && Output(s, s', t, line)
    ensures SharedInv(s')
  {
    var id, key := s.threads[t].id, s.threads[t].key;
    assert Duty(s, t, id, key);
    assert IsActive(s, id, key);
    LastLinesAppend(s.log[id], line);
    hide LastLines;
    OwnTaskStep(s, s', t, id, key);
  }

  /** Finishing takes one duty and one active update away: its own. */
  lemma FinishFrees(s: State, s': State, t: int, status: Status, progress: int)
    requires ActiveInv(s) && Finish(s, s', t, status, progress)
    ensures IsActive(s, s.threads[t].id, s.threads[t].key) && Duty(s, t, s.threads[t].id, s.threads[t].key)
    ensures forall x, k :: Duty(s, t, x, k) ==> x == s.threads[t].id
    ensures forall u, x, k :: Duty(s', u, x, k) <==> Duty(s, u, x, k) && u != t
    ensures forall x, k :: IsActive(s', x, k) <==> IsActive(s, x, k) && x != s.threads[t].id
    ensures forall u, x, k :: Duty(s', u, x, k) ==> x != s.threads[t].id
  {
    hide SetTask;
    var id, key := s.threads[t].id, s.threads[t].key;
    assert Duty(s, t, id, key);
    assert IsActive(s, id, key);
    forall u, x, k ensures Duty(s', u, x, k) <==> Duty(s, u, x, k) && u != t {}
    assert forall x, k :: IsActive(s, x, k) ==> (x == id <==> k == key);
    forall x, k ensures IsActive(s', x, k) <==> IsActive(s, x, k) && k != key {}
    assert forall u, k :: Duty(s, u, id, k) ==> IsActive(s, id, k) && k == key;
    assert forall u :: Duty(s, u, id, key) ==> u == t;
  }

  lemma FinishStep(s: State, s': State, t: int, status: Status, progress: int)
    requires SharedInv(s) && Finish(s, s', t, status, progress)
    ensures SharedInv(s')
  {
    FinishFrees(s, s', t, status, progress);
    FinishActive(s, s', t, status, progress);
    FinishData(s, s', t, status, progress);
  }

  lemma FinishActive(s: State, s': State, t: int, status: Status, progress: int)
    requires SharedInv(s) && Finish(s, s', t, status, progress)
    ensures ActiveInv(s')
  {
    hide LastLines, Duty, IsActive;
    FinishFrees(s, s', t, status, progress);
    var id := s.threads[t].id;
    forall x, k | IsActive(s', x, k) ensures exists u :: Duty(s', u, x, k) {
      var u :| Duty(s, u, x, k);
      assert u == t ==> x == id;
      assert Duty(s', u, x, k);
    }
  }

  lemma FinishData(s: State, s': State, t: int, status: Status, progress: int)
    requires SharedInv(s) && Finish(s, s', t, status, progress)
    ensures Known(s') && PassedInv(s') && DataInv(s')
  {
    hide LastLines, Duty, IsActive;
    FinishFrees(s, s', t, status, progress);
    assert s'.tasks.Keys == s.tasks.Keys && |s'.tasks.Keys| == |s.tasks.Keys|;
    assert s'.active.Keys == s.active.Keys - {s.threads[t].key};
    assert |s'.active.Keys| == |s'.active| && |s.active.Keys| == |s.active|;
  }

  // ----- starting a task --------------------------------------------------------------------------------

  /** Unfinished tasks and active updates correspond one to one. */
  lemma {:induction false} TasksAreActive(ids: set<string>, s: State)
    requires ActiveInv(s) && ids <= s.tasks.Keys && forall id :: id in ids ==> Unfinished(s.tasks[id])
    ensures |ids| <= |s.active|
    ensures exists keys ::
              keys <= s.active.Keys && |keys| == |ids| && forall id :: id in ids ==> s.tasks[id].project in keys
  {
    var keys := set id | id in ids :: s.tasks[id].project;
    forall id | id in ids ensures IsActive(s, id, s.tasks[id].project) {}
    SameCount(ids, keys, s);
    SubsetSize(keys, s.active.Keys);
    assert |s.active.Keys| == |s.active|;
  }

  lemma {:induction false} SameCount(ids: set<string>, keys: set<string>, s: State)
    requires ActiveInv(s) && ids <= s.tasks.Keys && forall id :: id in ids ==> Unfinished(s.tasks[id])
    requires keys == set id | id in ids :: s.tasks[id].project
    ensures |keys| == |ids|
  {
    if ids != {} {
      var id :| id in ids;
      var key := s.tasks[id].project;
      forall other | other in ids && other != id ensures s.tasks[other].project != key {
        assert IsActive(s, id, key);
        assert IsActive(s, other, s.tasks[other].project);
      }
      assert keys - {key} == set x | x in ids - {id} :: s.tasks[x].project;
      SameCount(ids - {id}, keys - {key}, s);
    }
  }

  /** The critical section adds one duty and one active update. */
  lemma BeginAdds(s: State, s': State, t: int, id: string, now: int, pruned: Tasks)
    requires SharedInv(s) && Begin(s, s', t, id, now, pruned)
    ensures id !in s.tasks && forall k :: !IsActive(s, id, k)
    ensures forall u, x, k :: Duty(s', u, x, k) <==> Duty(s, u, x, k) || (u == t && x == id && k == s.threads[t].key)
    ensures forall x, k :: IsActive(s', x, k) <==> IsActive(s, x, k) || (x == id && k == s.threads[t].key)
  {
    BeginAddsDuty(s, s', t, id, now, pruned);
    hide PassedInv, DataInv, Pruned, LastLines, Duty;
    forall x, k ensures IsActive(s', x, k) <==> IsActive(s, x, k) || (x == id && k == s.threads[t].key) {}
  }

  lemma BeginAddsDuty(s: State, s': State, t: int, id: string, now: int, pruned: Tasks)
    requires Begin(s, s', t, id, now, pruned)
    ensures forall u, x, k :: Duty(s', u, x, k) <==> Duty(s, u, x, k) || (u == t && x == id && k == s.threads[t].key)
  {
    hide Pruned;
  }

  lemma BeginUnfinished(s: State, s': State, t: int, id: string, now: int, pruned: Tasks)
    requires SharedInv(s) && Begin(s, s', t, id, now, pruned)
    ensures forall x, k :: IsActive(s', x, k) <==> x in s'.tasks && Unfinished(s'.tasks[x]) && s'.tasks[x].project == k
  {
    BeginAdds(s, s', t, id, now, pruned);
    PruningKeepsUnfinished(s.tasks, pruned);
    hide Pruned, Known, PassedInv, DataInv, Duty, IsActive;
    forall x, k ensures IsActive(s', x, k) <==> x in s'.tasks && Unfinished(s'.tasks[x]) && s'.tasks[x].project == k {
      assert x != id && x in s'.tasks ==> s'.tasks[x] == s.tasks[x];
    }
  }

  lemma OneMoreDuty(s: State, s': State, t: int, id: string, key: string)
    requires ActiveInv(s) && forall k :: !IsActive(s, id, k)
    requires forall u, x, k :: Duty(s', u, x, k) <==> Duty(s, u, x, k) || (u == t && x == id && k == key)
    requires forall x, k :: IsActive(s', x, k) <==> IsActive(s, x, k) || (x == id && k == key)
    ensures forall u, x, k :: Duty(s', u, x, k) ==> IsActive(s', x, k)
    ensures forall u, v, x, k :: Duty(s', u, x, k) && Duty(s', v, x, k) ==> u == v
    ensures forall x, k :: IsActive(s', x, k) ==> exists u :: Duty(s', u, x, k)
  {
    hide Duty, IsActive;
    forall x, k | IsActive(s', x, k) ensures exists u :: Duty(s', u, x, k) {
      if IsActive(s, x, k) {
        var u :| Duty(s, u, x, k);
        assert Duty(s', u, x, k);
      } else {
        assert Duty(s', t, x, k);
      }
    }
  }

  lemma BeginActive(s: State, s': State, t: int, id: string, now: int, pruned: Tasks)
    requires SharedInv(s) && Begin(s, s', t, id, now, pruned)
    ensures ActiveInv(s')
  {
    var key := s.threads[t].key;
    hide Known, PassedInv, DataInv, Begin, Duty, IsActive;
    BeginAdds(s, s', t, id, now, pruned);
    BeginUnfinished(s, s', t, id, now, pruned);
    OneMoreDuty(s, s', t, id, key);
  }

  lemma Grown<T>(m: map<string, T>, key: string, value: T)
    ensures |m[key := value]| <= |m| + 1
  {
    var grown := m[key := value];
    assert grown.Keys == m.Keys + {key};
    assert |grown.Keys| == |grown| && |m.Keys| == |m|;
  }

  lemma AllActive(s: State)
    requires ActiveInv(s) && forall id :: id in s.tasks ==> Unfinished(s.tasks[id])
    ensures |s.tasks| <= |s.active|
  {
    TasksAreActive(s.tasks.Keys, s);
    assert |s.tasks.Keys| == |s.tasks|;
  }

  lemma BeginSizes(s: State, s': State, t: int, id: string, now: int, pruned: Tasks)
    requires SharedInv(s) && Begin(s, s', t, id, now, pruned)
    ensures |s'.active| <= s'.peak && (|s'.tasks| <= MAX_TASKS || |s'.tasks| <= s'.peak)
  {
    PruningKeepsUnfinished(s.tasks, pruned);
    Grown(s.active, s.threads[t].key, id);
    Grown(pruned, id, Task(id, s.threads[t].key, Queued, 0, [], now));
    if forall x :: x in s.tasks ==> Unfinished(s.tasks[x]) {
      AllActive(s);
    }
    hide Known, ActiveInv, PassedInv, Pruned, Duty, IsActive, LastLines, Unfinished;
  }

  lemma BeginProgress(s: State, s': State, t: int, id: string, now: int, pruned: Tasks)
    requires SharedInv(s) && Begin(s, s', t, id, now, pruned)
    ensures forall u, x, k :: Duty(s', u, x, k) && x in s'.tasks ==>
                s'.tasks[x].progress == Expected(s'.threads[u]) <= 92
  {
    BeginAdds(s, s', t, id, now, pruned);
    PruningKeepsUnfinished(s.tasks, pruned);
    hide Known, PassedInv, Pruned, Duty, IsActive, LastLines, Unfinished;
    forall u, x, k | Duty(s', u, x, k) && x in s'.tasks ensures s'.tasks[x].progress == Expected(s'.threads[u]) <= 92 {
      if Duty(s, u, x, k) {
        assert IsActive(s, x, k) && u != t && x != id;
      }
    }
  }

  lemma BeginTables(s: State, s': State, t: int, id: string, now: int, pruned: Tasks)
    requires SharedInv(s) && Begin(s, s', t, id, now, pruned)
    ensures Known(s') && forall x :: x in s'.tasks && x in s'.log ==> s'.tasks[x].output == LastLines(s'.log[x])
  {
    hide Known, ActiveInv, PassedInv, DataInv, Begin, Pruned, LastLines;
    forall x | x in s'.tasks
      ensures s'.tasks[x].id == x && x in s'.used && x in s'.log && s'.tasks[x].output == LastLines(s'.log[x])
    {
      if x == id {
        BegunTable(s, s', t, id, now, pruned);
      } else {
        KeptTable(s, s', t, id, now, pruned, x);
      }
    }
    assert s'.log.Keys == s'.used by { BegunTable(s, s', t, id, now, pruned); }
    assert Known(s') by { KnownIs(s'); }
  }

  lemma KnownIs(s: State)
    requires s.log.Keys == s.used
    requires forall id :: id in s.tasks ==> s.tasks[id].id == id && id in s.used && id in s.log
    ensures Known(s)
  {
  }

  lemma BegunTable(s: State, s': State, t: int, id: string, now: int, pruned: Tasks)
    requires Known(s) && Begin(s, s', t, id, now, pruned)
    ensures s'.log.Keys == s'.used
    ensures id in s'.tasks && s'.tasks[id].id == id && id in s'.log && s'.tasks[id].output == LastLines(s'.log[id])
  {
    NoLinesYet();
    hide Pruned, LastLines;
  }

  lemma KeptTable(s: State, s': State, t: int, id: string, now: int, pruned: Tasks, x: string)
    requires Known(s) && DataInv(s) && Begin(s, s', t, id, now, pruned) && x in s'.tasks && x != id
    ensures s'.tasks[x].id == x && x in s'.used && x in s'.log && s'.tasks[x].output == LastLines(s'.log[x])
  {
    assert x in pruned && s'.tasks[x] == pruned[x] by { hide Known, DataInv, Pruned; }
    assert x in s.tasks && s.tasks[x] == pruned[x] by {
      hide Known, DataInv;
      PruningKeepsUnfinished(s.tasks, pruned);
    }
    hide Pruned, LastLines, Duty, Expected;
  }

  lemma NoLinesYet()
    ensures LastLines([]) == []
  {
  }

  lemma BeginStep(s: State, s': State, t: int, id: string, now: int, pruned: Tasks)
    requires GateInv(s) && SharedInv(s) && Begin(s, s', t, id, now, pruned)
    ensures SharedInv(s')
  {
    NobodyPassed(s, t);
    BeginActive(s, s', t, id, now, pruned);
    BeginSizes(s, s', t, id, now, pruned);
    BeginProgress(s, s', t, id, now, pruned);
    BeginTables(s, s', t, id, now, pruned);
    hide GateInv, Known, ActiveInv, Pruned, Duty, IsActive, LastLines;
  }

  lemma SharedKept(s: State, s': State, t: int, move: Move)
    requires GateInv(s) && SharedInv(s) && StepBy(s, s', t, move)
    ensures SharedInv(s')
  {
    hide GateInv, SharedInv, Pruned, SetTask, AppendLine;
    match move
    case Arriving(thread) => OutsideStep(s, s', t, thread);
    case Departing => OutsideStep(s, s', t, Operation(false));
    case ReadLocking => LockStep(s, s', t);
    case ReadUnlocking => UnlockStep(s, s', t);
    case Beginning(id, now, pruned) => BeginStep(s, s', t, id, now, pruned);
    case Spawning(runner) => SpawnStep(s, s', t, runner);
    case Reporting(to, progress) => ReportStep(s, s', t, to, progress);
    case Printing(line) => OutputStep(s, s', t, line);
    case NoticingFailure => FailStep(s, s', t);
    case Finishing(status, progress) => FinishStep(s, s', t, status, progress);
    case TryLocking => UnlockStep(s, s', t);
    case CheckingActive => CheckStep(s, s', t);
    case Unlocking => UnlockStep(s, s', t);
  }

  // ----- runs -----------------------------------------------------------------------------------------

  /** A run: every state follows from the one before it by a step of some thread. */
  ghost predicate Run(states: seq<State>) {
    && |states| > 0 && states[0] == START
    && forall i :: 0 < i < |states| ==> Step(states[i - 1], states[i])
  }

  lemma {:induction false} InvAlways(states: seq<State>, i: nat)
    requires Run(states) && i < |states|
    ensures Inv(states[i])
  {
    hide StepBy, GateInv, Known, ActiveInv, PassedInv, DataInv;
    if i == 0 {
      StartIsGood();
    } else {
      InvAlways(states, i - 1);
      assert Step(states[i - 1], states[i]);
      var t, move :| StepBy(states[i - 1], states[i], t, move);
      GateKept(states[i - 1], states[i], t, move);
      SharedKept(states[i - 1], states[i], t, move);
    }
  }

  lemma StartIsGood()
    ensures Inv(START)
  {
    assert forall t, id, key :: !Duty(START, t, id, key);
    assert forall id, key :: !IsActive(START, id, key);
  }

  /** Behind a deletion that has passed its check no update is active or gets started, and nothing
      else is inside the gate, until that deletion leaves. */
  lemma GateExclusion(states: seq<State>, i: nat, d: int)
    requires Run(states) && i < |states|
    requires d in states[i].threads && states[i].threads[d] == Deleter(Passed)
    ensures states[i].active == map[]
    ensures forall u :: u in states[i].threads ==> !InsideForReading(states[i].threads[u])
    ensures forall u :: u in states[i].threads && InsideForWriting(states[i].threads[u]) ==> u == d
    ensures forall u, id, key :: !Duty(states[i], u, id, key)
    ensures i + 1 < |states| ==> states[i + 1].tasks == states[i].tasks && states[i + 1].active == map[]
  {
    InvAlways(states, i);
    var s := states[i];
    PassedExcludes(s, d);
    if i + 1 < |states| {
      assert Step(states[i], states[i + 1]);
      var t, move :| StepBy(s, states[i + 1], t, move);
      PassedFreezes(s, states[i + 1], d, t, move);
    }
  }

  lemma PassedExcludes(s: State, d: int)
    requires Inv(s) && d in s.threads && s.threads[d] == Deleter(Passed)
    ensures s.active == map[]
    ensures forall u :: u in s.threads ==> !InsideForReading(s.threads[u])
    ensures forall u :: u in s.threads && InsideForWriting(s.threads[u]) ==> u == d
    ensures forall u, id, key :: !Duty(s, u, id, key)
  {
    hide Known, DataInv, Duty;
    assert d in s.writing;
    forall u | u in s.threads ensures !InsideForReading(s.threads[u]) {
      assert !(d in s.writing && u in s.reading);
    }
    forall u, id, key ensures !Duty(s, u, id, key) {
      assert !IsActive(s, id, key);
    }
  }

  // ----- what a task shows -------------------------------------------------------------------------------

  /** The progress a task shows fits its status. */
  ghost predicate Shows(task: Task) {
    match task.status
    case Queued => task.progress == 0
    case Running => task.progress in {8, 72, 92}
    case Success => task.progress == 100
    case Failed => true
  }

  ghost predicate AllShow(tasks: Tasks) {
    forall id :: id in tasks ==> Shows(tasks[id])
  }

  lemma ShowsStep(s: State, s': State, t: int, move: Move)
    requires StepBy(s, s', t, move) && AllShow(s.tasks)
    ensures AllShow(s'.tasks)
  {
    hide AllShow;
    if move.Beginning? {
      ShowsBeginning(s, s', t, move.id, move.now, move.pruned);
    } else if move.Reporting? || move.Printing? || move.Finishing? {
      ShowsReports(s, s', t, move);
    } else {
      hide Begin, Report, Output, Finish, Fresh, Entered, WaitsToRead, MayReadUnlock;
    }
  }

  lemma ShowsBeginning(s: State, s': State, t: int, id: string, now: int, pruned: Tasks)
    requires Begin(s, s', t, id, now, pruned) && AllShow(s.tasks)
    ensures AllShow(s'.tasks)
  {
    PruningKeepsUnfinished(s.tasks, pruned);
    hide Pruned;
  }

  lemma ShowsReports(s: State, s': State, t: int, move: Move)
    requires StepBy(s, s', t, move) && AllShow(s.tasks)
    requires move.Reporting? || move.Printing? || move.Finishing?
    ensures AllShow(s'.tasks)
  {
    hide Arrive, Depart, ReadLock, ReadUnlock, Begin, Spawn, Fail, TryLock, CheckActive, Unlock, LastLines;
  }

  /** In every reachable state: a waiting task shows nothing done, a running one one of the three marks of
      its stages, and one that has succeeded that it is complete. */
  lemma {:induction false} ProgressFitsStatus(states: seq<State>, i: nat)
    requires Run(states) && i < |states|
    ensures forall id :: id in states[i].tasks ==> Shows(states[i].tasks[id])
  {
    hide StepBy, Shows;
    if i > 0 {
      ProgressFitsStatus(states, i - 1);
      assert Step(states[i - 1], states[i]);
      var t, move :| StepBy(states[i - 1], states[i], t, move);
      ShowsStep(states[i - 1], states[i], t, move);
    }
  }

  /** Only a thread inside the gate for reading changes the tables. */
  lemma WritersAreInside(s: State, s': State, t: int, move: Move)
    requires StepBy(s, s', t, move)
    ensures (s'.tasks == s.tasks && s'.active == s.active) || (t in s.threads && InsideForReading(s.threads[t]))
  {
    hide Begin, Report, Output, Finish;
    if move.Beginning? || move.Reporting? || move.Printing? || move.Finishing? {
      UpdatesAreInside(s, s', t, move);
    } else {
      hide Fresh, Entered, WaitsToRead, MayReadUnlock;
    }
  }

  lemma UpdatesAreInside(s: State, s': State, t: int, move: Move)
    requires StepBy(s, s', t, move)
    requires move.Beginning? || move.Reporting? || move.Printing? || move.Finishing?
    ensures t in s.threads && InsideForReading(s.threads[t])
  {
    hide Pruned, SetTask, AppendLine;
    hide Arrive, Depart, ReadLock, ReadUnlock, Spawn, Fail, TryLock, CheckActive, Unlock;
  }

  lemma PassedFreezes(s: State, s': State, d: int, t: int, move: Move)
    requires Inv(s) && d in s.threads && s.threads[d] == Deleter(Passed) && StepBy(s, s', t, move)
    ensures s'.tasks == s.tasks && s'.active == map[]
  {
    hide Inv, StepBy, Duty;
    PassedExcludes(s, d);
    WritersAreInside(s, s', t, move);
  }

  // ----- what one step does to the past -------------------------------------------------------------

  /** The same task later: a finished task never changes, progress never goes back. */
  ghost predicate Aged(before: Task, after: Task) {
    && before.id == after.id && before.project == after.project && before.created == after.created
    && before.progress <= after.progress
    && (Unfinished(before) || after == before)
  }

  ghost predicate TasksAged(s: State, s': State) {
    && (forall id :: id in s.tasks && id in s'.tasks ==> Aged(s.tasks[id], s'.tasks[id]))
    && (forall id :: id in s.tasks && Unfinished(s.tasks[id]) ==> id in s'.tasks)
  }

  /** An identifier that left the table never comes back, and no accepted line is lost. */
  ghost predicate RecordsGrow(s: State, s': State) {
    && s.used <= s'.used
    && (forall id :: id in s'.tasks && id in s.used ==> id in s.tasks)
    && (forall id :: id in s.log ==> id in s'.log && s.log[id] <= s'.log[id])
  }

  /** An active update stays active until its own task has finished. */
  ghost predicate ReleasedByOwner(s: State, s': State) {
    forall key :: key in s.active ==>
      || (key in s'.active && s'.active[key] == s.active[key])
      || (s.active[key] in s'.tasks && !Unfinished(s'.tasks[s.active[key]]))
  }

  lemma BeginHistory(s: State, s': State, t: int, id: string, now: int, pruned: Tasks)
    requires Inv(s) && Begin(s, s', t, id, now, pruned)
    ensures TasksAged(s, s') && RecordsGrow(s, s') && ReleasedByOwner(s, s')
  {
    BeginAges(s, s', t, id, now, pruned);
    BeginRecords(s, s', t, id, now, pruned);
    hide Inv, Pruned, TasksAged, RecordsGrow;
  }

  lemma BeginAges(s: State, s': State, t: int, id: string, now: int, pruned: Tasks)
    requires Inv(s) && Begin(s, s', t, id, now, pruned)
    ensures TasksAged(s, s')
  {
    PruningKeepsUnfinished(s.tasks, pruned);
    hide GateInv, ActiveInv, PassedInv, DataInv, Pruned, Unfinished;
    assert id !in s.tasks;
  }

  lemma BeginRecords(s: State, s': State, t: int, id: string, now: int, pruned: Tasks)
    requires Inv(s) && Begin(s, s', t, id, now, pruned)
    ensures RecordsGrow(s, s')
  {
    PruningKeepsUnfinished(s.tasks, pruned);
    hide GateInv, ActiveInv, PassedInv, DataInv, Pruned, Unfinished;
  }

  lemma InCharge(s: State, t: int, id: string, key: string)
    requires Inv(s) && Duty(s, t, id, key)
    ensures IsActive(s, id, key)
    ensures id in s.tasks && id in s.log && Unfinished(s.tasks[id]) && s.tasks[id].progress == Expected(s.threads[t])
  {
    assert IsActive(s, id, key);
  }

  /** Reports and lines of the thread in charge. */
  lemma RunningHistory(s: State, s': State, t: int, move: Move)
    requires Inv(s) && StepBy(s, s', t, move) && (move.Reporting? || move.Printing?)
    ensures TasksAged(s, s') && RecordsGrow(s, s') && ReleasedByOwner(s, s')
  {
    hide LastLines;
    var id := s.threads[t].id;
    InCharge(s, t, id, s.threads[t].key);
    hide Inv;
    OneTaskAged(s, s', id, s'.tasks[id]);
    hide TasksAged;
  }

  /** What finishing does to the tables, told without the thread. */
  lemma FinishEffect(s: State, s': State, t: int, status: Status, progress: int)
    requires Inv(s) && Finish(s, s', t, status, progress)
    ensures var id, key := s.threads[t].id, s.threads[t].key;
            && IsActive(s, id, key) && id in s.tasks && Unfinished(s.tasks[id])
            && s.tasks[id].progress <= progress && (status == Success || status == Failed)
            && s'.tasks == s.tasks[id := s.tasks[id].(status := status, progress := progress)]
            && s'.active == s.active - {key} && s'.used == s.used && s'.log == s.log
  {
    assert Duty(s, t, s.threads[t].id, s.threads[t].key);
    hide Inv, Duty, LastLines;
    InCharge(s, t, s.threads[t].id, s.threads[t].key);
  }

  lemma FinishHistory(s: State, s': State, t: int, status: Status, progress: int)
    requires Inv(s) && Finish(s, s', t, status, progress)
    ensures TasksAged(s, s') && RecordsGrow(s, s') && ReleasedByOwner(s, s')
  {
    FinishEffect(s, s', t, status, progress);
    hide Inv, Finish;
    var id, key := s.threads[t].id, s.threads[t].key;
    FinishReleases(s, s', id, key);
    OneTaskAged(s, s', id, s.tasks[id].(status := status, progress := progress));
    hide ReleasedByOwner, TasksAged, IsActive;
  }

  lemma OneTaskAged(s: State, s': State, id: string, task: Task)
    requires id in s.tasks && s'.tasks == s.tasks[id := task] && Aged(s.tasks[id], task)
    ensures TasksAged(s, s')
  {
    hide Unfinished;
  }

  lemma TablesUntouched(s: State, s': State)
    requires s'.tasks == s.tasks && s'.active == s.active && s'.used == s.used && s'.log == s.log
    ensures TasksAged(s, s') && RecordsGrow(s, s') && ReleasedByOwner(s, s')
  {
  }

  lemma FinishReleases(s: State, s': State, id: string, key: string)
    requires IsActive(s, id, key) && id in s'.tasks && !Unfinished(s'.tasks[id]) && s'.active == s.active - {key}
    ensures ReleasedByOwner(s, s')
  {
  }

  lemma StepHistory(s: State, s': State, t: int, move: Move)
    requires Inv(s) && StepBy(s, s', t, move)
    ensures TasksAged(s, s') && RecordsGrow(s, s') && ReleasedByOwner(s, s')
  {
    hide Inv, Pruned, SetTask, AppendLine, TasksAged, RecordsGrow, ReleasedByOwner;
    if move.Beginning? {
      BeginHistory(s, s', t, move.id, move.now, move.pruned);
    } else if move.Reporting? || move.Printing? {
      RunningHistory(s, s', t, move);
    } else if move.Finishing? {
      FinishHistory(s, s', t, move.status, move.progress);
    } else {
      TablesUntouched(s, s');
    }
  }

  /** Over any stretch of any run: a task still in the table was there all along, progress never goes
      back, a finished task never changes, and its line log only grows. */
  lemma {:induction false} HistoryIsKept(states: seq<State>, i: nat, j: nat)
    requires Run(states) && i <= j < |states|
    ensures RecordsGrow(states[i], states[j])
    ensures forall id :: id in states[i].tasks && id in states[j].tasks ==>
                Aged(states[i].tasks[id], states[j].tasks[id])
    decreases j
  {
    hide Run, Inv, StepBy, TasksAged, RecordsGrow, Aged;
    if i == j {
      Unmoved(states[i]);
    } else {
      HistoryIsKept(states, i, j - 1);
      InvAlways(states, i);
      InvAlways(states, j - 1);
      var t, move := Mover(states, j);
      StepHistory(states[j - 1], states[j], t, move);
      Joined(states[i], states[j - 1], states[j]);
    }
  }

  lemma Mover(states: seq<State>, j: nat) returns (t: int, move: Move)
    requires Run(states) && 0 < j < |states|
    ensures StepBy(states[j - 1], states[j], t, move)
  {
    hide StepBy;
    assert Step(states[j - 1], states[j]);
    t, move :| StepBy(states[j - 1], states[j], t, move);
  }

  lemma Unmoved(s: State)
    ensures RecordsGrow(s, s)
    ensures forall id :: id in s.tasks ==> Aged(s.tasks[id], s.tasks[id])
  {
  }

  lemma Joined(a: State, b: State, c: State)
    requires Inv(a) && RecordsGrow(a, b) && RecordsGrow(b, c) && TasksAged(b, c)
    requires forall id :: id in a.tasks && id in b.tasks ==> Aged(a.tasks[id], b.tasks[id])
    ensures RecordsGrow(a, c)
    ensures forall id :: id in a.tasks && id in c.tasks ==> Aged(a.tasks[id], c.tasks[id])
  {
    hide GateInv, ActiveInv, PassedInv, DataInv, Unfinished;
    forall id | id in a.tasks && id in c.tasks ensures Aged(a.tasks[id], c.tasks[id]) {
      assert id in b.used && id in b.tasks;
      assert Aged(a.tasks[id], b.tasks[id]) && Aged(b.tasks[id], c.tasks[id]);
    }
  }

  /** In every run: an unfinished task is never pruned, and a project stops being active only when its
      own task has finished. */
  lemma UpdatesRunToTheirEnd(states: seq<State>, j: nat)
    requires Run(states) && 0 < j < |states|
    ensures TasksAged(states[j - 1], states[j]) && ReleasedByOwner(states[j - 1], states[j])
  {
    hide Run, Inv, StepBy, TasksAged, ReleasedByOwner, RecordsGrow;
    InvAlways(states, j - 1);
    var t, move := Mover(states, j);
    StepHistory(states[j - 1], states[j], t, move);
  }

  lemma PeakStep(s: State, s': State, t: int, move: Move)
    requires StepBy(s, s', t, move)
    ensures s'.peak == s.peak || s'.peak == |s'.active|
  {
    hide Pruned, SetTask, AppendLine, Reports, Finishes, Fresh, Entered;
    if move.Beginning? {
      OneMoreActive(s.active, s.threads[t].key, move.id);
    }
  }

  lemma OneMoreActive(active: map<string, string>, key: string, id: string)
    requires key !in active
    ensures |active[key := id]| == |active| + 1
  {
    var more := active[key := id];
    assert more.Keys == active.Keys + {key};
    assert |more.Keys| == |more| && |active.Keys| == |active|;
  }

  /** The counter behind the size bound is the number of active updates in some earlier state, and no
      earlier state had more. */
  lemma {:induction false} PeakIsReached(states: seq<State>, i: nat) returns (j: nat)
    requires Run(states) && i < |states|
    ensures j <= i && |states[j].active| == states[i].peak
    ensures forall k :: 0 <= k <= i ==> |states[k].active| <= states[i].peak
  {
    hide Run, StepBy, GateInv, Known, ActiveInv, PassedInv;
    InvAlways(states, i);
    if i == 0 {
      j := 0;
      FirstIsStart(states);
    } else {
      j := PeakIsReached(states, i - 1);
      var t, move := Mover(states, i);
      PeakStep(states[i - 1], states[i], t, move);
      PeakGrows(states[i - 1], states[i], t, move);
      if states[i].peak != states[i - 1].peak {
        j := i;
      }
    }
  }

  lemma FirstIsStart(states: seq<State>)
    requires Run(states)
    ensures states[0].active == map[] && states[0].peak == 0
  {
  }

  lemma PeakGrows(s: State, s': State, t: int, move: Move)
    requires StepBy(s, s', t, move)
    ensures s.peak <= s'.peak
  {
    hide Pruned, SetTask, AppendLine, Reports, Finishes, Fresh, Entered;
  }

  /** The registry in every reachable state: the active updates are the unfinished tasks, filed under
      their projects; every output is the tail of the accepted lines; and the table holds at most a hundred tasks or as
      many as updates were active in some state so far. */
  lemma RegistryInvariant(states: seq<State>, i: nat)
    requires Run(states) && i < |states|
    ensures forall id, key :: key in states[i].active && states[i].active[key] == id <==>
                              id in states[i].tasks && states[i].tasks[id].project == key
                                && states[i].tasks[id].status in {Queued, Running}
    ensures forall id :: id in states[i].tasks ==>
                         id in states[i].log && IsTail(states[i].tasks[id].output, states[i].log[id])
    ensures |states[i].tasks| <= 100 || exists j :: 0 <= j <= i && |states[i].tasks| <= |states[j].active|
  {
    hide Run, Inv, IsTail;
    InvAlways(states, i);
    ActiveIsUnfinished(states[i]);
    OutputIsTail(states[i]);
    FewTasks(states[i]);
    var j := PeakIsReached(states, i);
  }

  lemma ActiveIsUnfinished(s: State)
    requires Inv(s)
    ensures forall id, key :: key in s.active && s.active[key] == id <==>
                              id in s.tasks && s.tasks[id].project == key && s.tasks[id].status in {Queued, Running}
  {
    hide GateInv, Known, PassedInv, DataInv, Duty;
    forall id, key
      ensures key in s.active && s.active[key] == id <==>
              id in s.tasks && s.tasks[id].project == key && s.tasks[id].status in {Queued, Running}
    {
      assert IsActive(s, id, key) <==> IsUnfinishedOf(s, id, key);
    }
  }

  lemma OutputIsTail(s: State)
    requires Inv(s)
    ensures forall id :: id in s.tasks ==> id in s.log && IsTail(s.tasks[id].output, s.log[id])
  {
    hide GateInv, ActiveInv, PassedInv, Duty, IsTail, LastLines;
    forall id | id in s.tasks ensures id in s.log && IsTail(s.tasks[id].output, s.log[id]) {
      LastLinesAreTail(s.log[id]);
    }
  }

  lemma FewTasks(s: State)
    requires Inv(s)
    ensures |s.tasks| <= 100 || |s.tasks| <= s.peak
  {
    hide GateInv, Known, ActiveInv, PassedInv, Duty, LastLines;
  }
}
