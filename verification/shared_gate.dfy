/** The gate and the update registry as one request finds them: it takes its own steps, and before each of
    them all other threads may take any number of theirs. */
module SharedGate {
  import Gate = UpdateGate
  import Registry = UpdateRegistry

  class SharedState {
    var current: Gate.State
    /** All states so far; every one follows from the one before it by a step of some thread. */
    ghost var history: seq<Gate.State>

    ghost predicate Valid()
      reads this
    {
      Gate.Run(history) && current == history[|history| - 1]
    }

    constructor ()
      ensures Valid() && history == [Gate.START]
    {
      current := Gate.START;
      history := [Gate.START];
    }

    /** Thread `d` stands where it stood in all states from `from` on. */
    ghost predicate Waits(d: int, thread: Gate.Thread, from: nat)
      reads this
    {
      forall i :: from <= i < |history| ==> d in history[i].threads && history[i].threads[d] == thread
    }

    /** One step of one thread. */
    method Take(next: Gate.State, t: int, ghost move: Gate.Move)
      requires Valid() && Gate.StepBy(current, next, t, move)
      modifies this
      ensures Valid() && current == next && history == old(history) + [next]
    {
      hide Gate.StepBy, Gate.Run;
      LastOfRun(history);
      LongerRun(history, next, t, move);
      current, history := next, history + [next];
    }

    /** Any steps of any other threads. */
    method OthersMove(d: int)
      requires Valid() && d in current.threads
      modifies this
      ensures Valid() && 0 < |old(history)| && old(history) <= history
      ensures Waits(d, old(current.threads[d]), |old(history)| - 1)
      ensures d in current.threads && current.threads[d] == old(current.threads[d])
    {
      hide Gate.StepBy, Gate.Run;
      var thread := current.threads[d];
      ghost var before := history;
      LastOfRun(history);
      var steps: nat :| steps >= 0;
      for n := 0 to steps
        invariant Valid() && before <= history && |before| >= 1
        invariant Waits(d, thread, |before| - 1)
      {
        LastOfRun(history);
        var t: int := *;
        var move: Gate.Move := *;
        var next: Gate.State := *;
        if t != d && Gate.StepBy(current, next, t, move) {
          StandsStill(current, next, t, move, d);
          Take(next, t, move);
        }
      }
    }

    method Arrive(d: int, thread: Gate.Thread)
      requires Valid() && d !in current.threads && Gate.Fresh(thread)
      modifies this
      ensures Valid() && history == old(history) + [current]
      ensures current == old(current).(threads := old(current).threads[d := thread])
    {
      hide Gate.Run;
      Take(current.(threads := current.threads[d := thread]), d, Gate.Arriving(thread));
    }

    method Depart(d: int)
      requires Valid() && d in current.threads && Gate.Fresh(current.threads[d])
      modifies this
      ensures Valid() && history == old(history) + [current]
      ensures current == old(current).(threads := old(current).threads - {d})
    {
      hide Gate.Run;
      Take(current.(threads := current.threads - {d}), d, Gate.Departing);
    }

    // ----- a deletion --------------------------------------------------------------------------------

    /** `seen` is the state in which the attempt was made: it succeeds exactly if nobody held the gate. */
    method TryLock(d: int) returns (free: bool, ghost seen: nat)
      requires Valid() && d in current.threads && current.threads[d] == Gate.Deleter(Gate.Trying)
      modifies this
      ensures Valid() && old(history) <= history && |old(history)| <= seen + 1 <= |history|
      ensures free <==> history[seen].reading == {} && history[seen].writing == {}
      ensures d in current.threads && current.threads[d] == Gate.Deleter(if free then Gate.Holding else Gate.Trying)
    {
      hide Gate.Run;
      OthersMove(d);
      LastOfRun(history);
      seen := |history| - 1;
      free := current.reading == {} && current.writing == {};
      if free {
        var next := current.(threads := current.threads[d := Gate.Deleter(Gate.Holding)], writing := {d});
        Take(next, d, Gate.TryLocking);
      }
    }

    /** `seen` is the state in which the check was made. */
    method UpdatesActive(d: int) returns (updating: bool, ghost seen: nat)
      requires Valid() && d in current.threads && current.threads[d] == Gate.Deleter(Gate.Holding)
      modifies this
      ensures Valid() && old(history) <= history && |old(history)| <= seen + 1 < |history|
      ensures updating <==> history[seen].active != map[]
      ensures d in current.threads && current.threads[d] == Gate.Deleter(if updating then Gate.Leaving else Gate.Passed)
    {
      hide Gate.Run;
      OthersMove(d);
      LastOfRun(history);
      seen := |history| - 1;
      updating := Check(d);
    }

    method Check(d: int) returns (updating: bool)
      requires Valid() && d in current.threads && current.threads[d] == Gate.Deleter(Gate.Holding)
      modifies this
      ensures Valid() && history == old(history) + [current]
      ensures updating <==> old(current).active != map[]
      ensures current == old(current).(
                threads := old(current).threads[d := Gate.Deleter(if updating then Gate.Leaving else Gate.Passed)])
    {
      hide Gate.Run;
      updating := |current.active| > 0;
      assert |current.active| == 0 <==> current.active == map[];
      var phase := if updating then Gate.Leaving else Gate.Passed;
      Take(current.(threads := current.threads[d := Gate.Deleter(phase)]), d, Gate.CheckingActive);
    }

    method Unlock(d: int)
      requires Valid() && d in current.threads
      requires current.threads[d] == Gate.Deleter(Gate.Leaving) || current.threads[d] == Gate.Deleter(Gate.Passed)
      modifies this
      ensures Valid() && history == old(history) + [current]
      ensures current == old(current).(threads := old(current).threads - {d}, writing := old(current).writing - {d})
    {
      hide Gate.Run;
      Take(current.(threads := current.threads - {d}, writing := current.writing - {d}), d, Gate.Unlocking);
    }

    /** The attempt to lock and the check, as a deletion makes them. */
    method AskGate(d: int) returns (free: bool, updating: bool)
      requires Valid() && d in current.threads && current.threads[d] == Gate.Deleter(Gate.Trying)
      modifies this
      ensures Valid() && 0 < |old(history)| && old(history) <= history
      ensures Answered(history, |old(history)| - 1, free, updating)
      ensures d in current.threads
      ensures current.threads[d] ==
              Gate.Deleter(if !free then Gate.Trying else if updating then Gate.Leaving else Gate.Passed)
    {
      hide Gate.Run;
      LastOfRun(history);
      ghost var seen;
      free, seen := TryLock(d);
      ghost var attempted := history;
      updating := false;
      if free {
        ghost var checked;
        updating, checked := UpdatesActive(d);
        assert history[seen] == attempted[seen];
        assert updating <==> history[checked].active != map[];
      }
      ghost var asked := history;
      assert Answered(asked, |old(history)| - 1, free, updating);
      OthersMove(d);
      LaterStates(asked, history, |old(history)| - 1, free, updating);
    }

    // ----- an operation that only needs deletions kept out ------------------------------------------

    /** Waits until nobody holds the gate for writing. The wait can always end: whoever holds the gate for
        writing has at most a check left to do before it leaves. */
    method ReadLock(d: int)
      requires Valid() && d in current.threads && current.threads[d] == Gate.Operation(false)
      modifies this
      ensures Valid() && old(history) <= history
      ensures d in current.threads && current.threads[d] == Gate.Operation(true)
    {
      hide Gate.Run;
      OthersMove(d);
      if current.writing != {} {
        WriterLeaves(d);
      }
      var next := current.(threads := current.threads[d := Gate.Operation(true)], reading := current.reading + {d});
      Take(next, d, Gate.ReadLocking);
    }

    method WriterLeaves(d: int)
      requires Valid() && d in current.threads && current.threads[d] == Gate.Operation(false)
      requires current.writing != {}
      modifies this
      ensures Valid() && old(history) <= history && current.writing == {}
      ensures d in current.threads && current.threads[d] == Gate.Operation(false)
    {
      hide Gate.Run;
      LastOfRun(history);
      OneWriter(history);
      var w :| w in current.writing;
      if current.threads[w] == Gate.Deleter(Gate.Holding) {
        var _ := Check(w);
      }
      Unlock(w);
    }

    method ReadUnlock(d: int)
      requires Valid() && d in current.threads && current.threads[d] == Gate.Operation(true)
      modifies this
      ensures Valid() && history == old(history) + [current]
      ensures current == old(current).(threads := old(current).threads - {d}, reading := old(current).reading - {d})
    {
      hide Gate.Run;
      Take(current.(threads := current.threads - {d}, reading := current.reading - {d}), d, Gate.ReadUnlocking);
    }
  }

  lemma LastOfRun(states: seq<Gate.State>)
    requires Gate.Run(states)
    ensures |states| > 0
  {
  }

  lemma LongerRun(states: seq<Gate.State>, next: Gate.State, t: int, move: Gate.Move)
    requires Gate.Run(states) && Gate.StepBy(states[|states| - 1], next, t, move)
    ensures Gate.Run(states + [next])
  {
    hide Gate.StepBy;
    assert Gate.Step(states[|states| - 1], next);
  }

  /** A step of one thread leaves every other thread where it stands. */
  lemma StandsStill(s: Gate.State, s': Gate.State, t: int, move: Gate.Move, d: int)
    requires Gate.StepBy(s, s', t, move) && t != d && d in s.threads
    ensures d in s'.threads && s'.threads[d] == s.threads[d]
  {
    hide Registry.Pruned, Registry.SetTask, Registry.AppendLine, Gate.Fresh, Gate.Entered;
    hide Gate.Finishes, Gate.Reports;
  }

  lemma OneWriter(states: seq<Gate.State>)
    requires Gate.Run(states) && |states| > 0 && states[|states| - 1].writing != {}
    ensures var s := states[|states| - 1];
            exists w: int :: w in s.writing && s.writing == {w}
              && w in s.threads && s.threads[w].Deleter? && s.threads[w].phase != Gate.Trying
  {
    hide Gate.Run;
    Gate.InvAlways(states, |states| - 1);
    hide Gate.Known, Gate.ActiveInv, Gate.PassedInv, Gate.DataInv;
    var writing := states[|states| - 1].writing;
    SomeElement(writing);
    var w :| w in writing;
    assert forall u :: u in writing ==> u == w;
    assert writing == {w};
  }

  lemma SomeElement(threads: set<int>)
    ensures threads != {} ==> exists t :: t in threads
  {
    if forall t :: t !in threads {
      assert threads == {};
    }
  }

  // ----- what a request may rely on ------------------------------------------------------------------

  /** The deletion is alone: it has passed its check, no update is active or in anybody's charge, and no
      other thread is inside the gate. */
  ghost predicate Alone(s: Gate.State, d: int) {
    && d in s.threads && s.threads[d] == Gate.Deleter(Gate.Passed)
    && s.active == map[]
    && (forall u :: u in s.threads ==> !Gate.InsideForReading(s.threads[u]))
    && (forall u :: u in s.threads && Gate.InsideForWriting(s.threads[u]) ==> u == d)
    && (forall u, id, key :: !Gate.Duty(s, u, id, key))
  }

  lemma PassedIsAlone(states: seq<Gate.State>, i: nat, d: int)
    requires Gate.Run(states) && i < |states|
    requires d in states[i].threads && states[i].threads[d] == Gate.Deleter(Gate.Passed)
    ensures Alone(states[i], d)
  {
    hide Gate.Run, Gate.InsideForReading, Gate.InsideForWriting, Gate.Duty;
    Gate.GateExclusion(states, i, d);
  }

  /** No deletion holds the gate. */
  ghost predicate NobodyDeletes(s: Gate.State) {
    forall u :: u in s.threads ==> !Gate.InsideForWriting(s.threads[u])
  }

  lemma InsideNobodyDeletes(states: seq<Gate.State>, i: nat, d: int)
    requires Gate.Run(states) && i < |states|
    requires d in states[i].threads && states[i].threads[d] == Gate.Operation(true)
    ensures NobodyDeletes(states[i])
  {
    hide Gate.Run;
    Gate.InvAlways(states, i);
    hide Gate.Known, Gate.ActiveInv, Gate.PassedInv, Gate.DataInv;
    assert d in states[i].reading;
  }

  /** Every event from number `from` on happened while the deletion by thread `d` was alone. */
  ghost predicate AllAlone(history: seq<Gate.State>, moments: seq<nat>, from: nat, d: int) {
    forall k :: from <= k < |moments| ==> moments[k] < |history| && Alone(history[moments[k]], d)
  }

  /** Every event from number `from` on happened while no deletion held the gate. */
  ghost predicate NobodyEverDeletes(history: seq<Gate.State>, moments: seq<nat>, from: nat) {
    forall k :: from <= k < |moments| ==> moments[k] < |history| && NobodyDeletes(history[moments[k]])
  }

  /** The attempt and the check were made in states since then, and came out as those states say. */
  ghost predicate Answered(history: seq<Gate.State>, since: nat, free: bool, updating: bool) {
    && (exists i: nat :: since <= i < |history| && (free <==> history[i].reading == {} && history[i].writing == {}))
    && (free ==> exists i: nat :: since <= i < |history| && (updating <==> history[i].active != map[]))
  }

  lemma LaterStates(history: seq<Gate.State>, later: seq<Gate.State>, since: nat, free: bool, updating: bool)
    requires Answered(history, since, free, updating) && history <= later
    ensures Answered(later, since, free, updating)
  {
  }
}
