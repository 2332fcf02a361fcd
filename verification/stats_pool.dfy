/** Sampling the resource use of running containers: a cache, and at most four workers that read the
    stale samples concurrently. The workers are scheduled by guarded commands, so that every order of
    their steps, every outcome of a read and every moment of cancellation is covered. */
module StatsPool {
  import opened Options

  const FRESH_SECONDS := 5
  const MAX_WORKERS := 4

  datatype Sample = Sample(cpu: real, memory: nat, limit: nat)

  datatype Cached = Cached(sample: Sample, at: int)

  datatype Row = Row(id: string, state: string, sample: Sample)

  /** A worker goroutine: waiting for an index, holding one, or ended. */
  datatype Worker = Idle | Busy(index: nat) | Gone

  ghost predicate Increasing(indices: seq<nat>) {
    forall a, b :: 0 <= a < b < |indices| ==> indices[a] < indices[b]
  }

  ghost predicate Distinct(indices: seq<nat>) {
    forall a, b :: 0 <= a < b < |indices| ==> indices[a] != indices[b]
  }

  // ----- the schedule ends --------------------------------------------------------------

  function Weight(worker: Worker): nat {
    match worker
    case Busy(_) => 2
    case Idle => 1
    case Gone => 0
  }

  function Weights(workers: seq<Worker>): nat {
    if workers == [] then 0 else Weights(workers[..|workers| - 1]) + Weight(workers[|workers| - 1])
  }

  lemma {:induction false} WeightsUpdate(workers: seq<Worker>, w: nat, worker: Worker)
    requires w < |workers|
    ensures Weights(workers[w := worker]) == Weights(workers) - Weight(workers[w]) + Weight(worker)
  {
    var n := |workers| - 1;
    if w == n {
      assert workers[w := worker][..n] == workers[..n];
    } else {
      assert workers[w := worker][..n] == workers[..n][w := worker];
      WeightsUpdate(workers[..n], w, worker);
    }
  }

  // ----- the pool --------------------------------------------------------------------------

  /** A row after its read, if there was one and it succeeded. */
  function Sampled(row: Row, answer: Option<Sample>): Row {
    if answer.Some? then row.(sample := answer.value) else row
  }

  function AnswerOf(answers: map<nat, Option<Sample>>, i: nat): Option<Sample> {
    if i in answers then answers[i] else None
  }

  /** Every index handed out is with exactly one worker or answered, and never both. */
  ghost predicate PoolInv(workers: seq<Worker>, handed: seq<nat>, holder: map<nat, nat>,
                          answers: map<nat, Option<Sample>>) {
    && (forall i: nat :: i in holder <==> i in handed)
    && (forall i: nat :: i in holder ==> i in answers || (holder[i] < |workers| && workers[holder[i]] == Busy(i)))
    && (forall i: nat :: i in answers ==> i in handed)
    && (forall w :: 0 <= w < |workers| && workers[w].Busy? ==>
                      && workers[w].index in holder && holder[workers[w].index] == w && workers[w].index !in answers)
  }

  lemma NextIsNew(pending: seq<nat>, completed: seq<nat>)
    requires Increasing(pending) && completed <= pending && |completed| < |pending|
    ensures pending[|completed|] !in completed && completed + [pending[|completed|]] <= pending
  {
  }

  lemma InvHandOut(workers: seq<Worker>, handed: seq<nat>, holder: map<nat, nat>, answers: map<nat, Option<Sample>>,
                   w: nat, i: nat)
    requires PoolInv(workers, handed, holder, answers) && w < |workers| && workers[w] == Idle && i !in handed
    ensures PoolInv(workers[w := Busy(i)], handed + [i], holder[i := w], answers)
  {
  }

  lemma InvAnswered(workers: seq<Worker>, handed: seq<nat>, holder: map<nat, nat>, answers: map<nat, Option<Sample>>,
                 w: nat, answer: Option<Sample>)
    requires PoolInv(workers, handed, holder, answers) && w < |workers| && workers[w].Busy?
    ensures workers[w].index in handed && workers[w].index !in answers
    ensures PoolInv(workers[w := Idle], handed, holder, answers[workers[w].index := answer])
  {
  }

  class Pool {
    const containers: array<Row>
    const succeeded: array<bool>
    const pending: seq<nat>
    var workers: seq<Worker>
    var completed: seq<nat>
    var closed: bool
    var cancelled: bool
    ghost const original: seq<Row>
    ghost var holder: map<nat, nat>
    ghost var readIndices: seq<nat>
    ghost var answers: map<nat, Option<Sample>>

    ghost predicate Planned() {
      && Increasing(pending) && (forall a :: 0 <= a < |pending| ==> pending[a] < containers.Length)
      && |original| == containers.Length == succeeded.Length
    }

    ghost predicate Valid()
      reads this
    {
      && Planned()
      && completed <= pending
      && |workers| <= 4 && (|workers| == 0 ==> |pending| == 0)
      && (!closed ==> forall w :: 0 <= w < |workers| ==> workers[w] != Gone)
      && (closed ==> cancelled || completed == pending)
      && PoolInv(workers, completed, holder, answers)
      && Distinct(readIndices) && (forall i: nat :: i in readIndices <==> i in answers)
    }

    /** Every row is as its answer says. */
    ghost predicate RowsMatch()
      requires Planned()
      reads this`answers, containers, succeeded
    {
      forall i: nat :: i < containers.Length ==>
                         && containers[i] == Sampled(original[i], AnswerOf(answers, i))
                         && (succeeded[i] <==> AnswerOf(answers, i).Some?)
    }

    constructor (containers: array<Row>, pending: seq<nat>)
      requires Increasing(pending) && forall a :: 0 <= a < |pending| ==> pending[a] < containers.Length
      ensures Valid() && RowsMatch() && fresh(succeeded)
      ensures this.containers == containers && this.pending == pending && original == containers[..]
    {
      this.containers, this.pending, original := containers, pending, containers[..];
      succeeded := new bool[containers.Length](_ => false);
      workers := seq(if |pending| < MAX_WORKERS then |pending| else MAX_WORKERS, _ => Idle);
      completed, closed, cancelled, holder, readIndices, answers := [], false, false, map[], [], map[];
    }

    ghost function Left(): nat
      requires Valid()
      reads this
    {
      Weights(workers) + 2 * (|pending| - |completed|) + if closed then 0 else 1
    }

    predicate Running()
      reads this
    {
      !closed || exists w :: 0 <= w < |workers| && workers[w] != Gone
    }

    /** The unbuffered channel hands the next index to a waiting worker. */
    method HandOut(w: nat)
      requires Valid() && w < |workers| && workers[w] == Idle && !closed && |completed| < |pending|
      modifies this`workers, this`completed, this`holder
      ensures Valid() && Left() < old(Left())
    {
      hide PoolInv, Weights, Increasing, Distinct;
      var i := pending[|completed|];
      NextIsNew(pending, completed);
      WeightsUpdate(workers, w, Busy(i));
      InvHandOut(workers, completed, holder, answers, w, i);
      workers, completed, holder := workers[w := Busy(i)], completed + [i], holder[i := w];
    }

    /** A read returns, with any outcome. */
    method Return(w: nat)
      requires Valid() && RowsMatch() && w < |workers| && workers[w].Busy?
      modifies this`workers, this`readIndices, this`answers, containers, succeeded
      ensures Valid() && RowsMatch() && Left() < old(Left())
    {
      hide PoolInv, Weights, RowsMatch, Increasing;
      var answer: Option<Sample> := *;
      var i := workers[w].index;
      WeightsUpdate(workers, w, Idle);
      InvAnswered(workers, completed, holder, answers, w, answer);
      assert i !in readIndices;
      Record(i, answer);
      workers, readIndices := workers[w := Idle], readIndices + [i];
    }

    method Record(i: nat, answer: Option<Sample>)
      requires Planned() && RowsMatch() && i < containers.Length && i !in answers
      modifies this`answers, containers, succeeded
      ensures RowsMatch() && answers == old(answers)[i := answer]
    {
      ghost var after := answers[i := answer];
      assert AnswerOf(answers, i) == None && AnswerOf(after, i) == answer;
      assert forall j: nat :: j != i ==> AnswerOf(after, j) == AnswerOf(answers, j);
      hide AnswerOf;
      if answer.Some? {
        containers[i] := containers[i].(sample := answer.value);
        succeeded[i] := true;
      }
      answers := after;
    }

    method Leave(w: nat)
      requires Valid() && w < |workers| && workers[w] == Idle && closed
      modifies this`workers
      ensures Valid() && Left() < old(Left())
    {
      WeightsUpdate(workers, w, Gone);
      InvLeft(workers, completed, holder, answers, w);
      hide PoolInv, Weights;
      workers := workers[w := Gone];
    }

    /** While the pool runs some step is possible: waiting for the workers always ends. */
    lemma SomeStepIsPossible()
      requires Valid() && Running()
      ensures (exists w: nat :: w < |workers| && workers[w] == Idle && !closed && |completed| < |pending|) ||
              (exists w: nat :: w < |workers| && workers[w].Busy?) ||
              (!closed && (cancelled || |completed| == |pending|)) ||
              (exists w: nat :: w < |workers| && workers[w] == Idle && closed)
    {
      hide PoolInv;
      if closed {
        var w :| 0 <= w < |workers| && workers[w] != Gone;
        assert workers[w] == Idle || workers[w].Busy?;
      } else if |completed| < |pending| {
        assert workers[0] == Idle || workers[0].Busy?;
      }
    }

    method Run()
      requires Valid() && RowsMatch()
      modifies this, containers, succeeded
      ensures Valid() && RowsMatch() && !Running()
    {
      hide PoolInv, Weights, Increasing, Distinct, RowsMatch;
      while Running()
        invariant Valid() && RowsMatch()
        decreases Left()
      {
        // The request may be cancelled at any moment.
        var nowCancelled: bool := *;
        cancelled := cancelled || nowCancelled;
        SomeStepIsPossible();
        if {
          case w: nat :| w < |workers| && workers[w] == Idle && !closed && |completed| < |pending| => HandOut(w);
          case w: nat :| w < |workers| && workers[w].Busy? => Return(w);
          case w: nat :| w < |workers| && workers[w] == Idle && closed => Leave(w);
          case !closed && (cancelled || |completed| == |pending|) => closed := true;
        }
      }
    }
  }

  lemma InvLeft(workers: seq<Worker>, handed: seq<nat>, holder: map<nat, nat>, answers: map<nat, Option<Sample>>,
                w: nat)
    requires PoolInv(workers, handed, holder, answers) && w < |workers| && workers[w] == Idle
    ensures PoolInv(workers[w := Gone], handed, holder, answers)
  {
  }

  /** Reads the pending rows. Whatever the order, whatever fails and whenever the request is cancelled:
      the rows handed out are a prefix of the pending ones, each of them is read once and no other row
      is, and every row ends as its own answer says. */
  method RunPool(containers: array<Row>, pending: seq<nat>)
    returns (completed: seq<nat>, succeeded: array<bool>,
             ghost readIndices: seq<nat>, ghost answers: map<nat, Option<Sample>>, ghost cancelled: bool)
    requires Increasing(pending) && forall a :: 0 <= a < |pending| ==> pending[a] < containers.Length
    modifies containers
    ensures completed <= pending && (!cancelled ==> completed == pending)
    ensures Distinct(readIndices) && forall i: nat :: i in readIndices <==> i in completed
    ensures forall i: nat :: i in answers <==> i in completed
    ensures fresh(succeeded) && succeeded.Length == containers.Length
    ensures forall i: nat :: i < containers.Length ==>
                containers[i] == Sampled(old(containers[i]), AnswerOf(answers, i))
    ensures forall i: nat :: i < containers.Length ==> (succeeded[i] <==> AnswerOf(answers, i).Some?)
  {
    var pool := new Pool(containers, pending);
    pool.Run();
    completed, succeeded := pool.completed, pool.succeeded;
    readIndices, answers, cancelled := pool.readIndices, pool.answers, pool.cancelled;
  }

  // ----- the cache -----------------------------------------------------------------------------

  class Sampler {
    var statsCache: map<string, Cached>
    var clock: int

    constructor ()
      ensures statsCache == map[]
    {
      statsCache := map[];
    }

    /** The clock never goes back. */
    method Now() returns (t: int)
      modifies this`clock
      ensures t == clock >= old(clock)
    {
      var passed: nat :| passed >= 0;
      clock := clock + passed;
      t := clock;
    }

    /** Serves fresh samples from the cache and lists the other running rows. */
    method Plan(containers: array<Row>) returns (live: set<string>, pending: seq<nat>, ghost checks: seq<int>)
      modifies containers, this`clock
      ensures |checks| == containers.Length && forall i :: 0 <= i < |checks| ==> old(clock) <= checks[i] <= clock
      ensures Increasing(pending)
      ensures forall i: nat :: i in pending <==>
                  i < containers.Length && NeedsRead(statsCache, old(containers[i]), checks[i])
      ensures forall i :: 0 <= i < containers.Length ==>
                  containers[i] == Served(statsCache, old(containers[i]), checks[i])
      ensures forall id :: id in live <==> Runs(old(containers[..]), id)
      ensures clock >= old(clock)
    {
      live, pending, checks := {}, [], [];
      ghost var rows := containers[..];
      for i := 0 to containers.Length
        invariant clock >= old(clock)
        invariant |checks| == i && forall j :: 0 <= j < i ==> old(clock) <= checks[j] <= clock
        invariant Increasing(pending) && forall a :: 0 <= a < |pending| ==> pending[a] < i
        invariant forall j: nat :: j in pending <==> j < i && NeedsRead(statsCache, rows[j], checks[j])
        invariant forall j :: 0 <= j < i ==> containers[j] == Served(statsCache, rows[j], checks[j])
        invariant forall j :: i <= j < containers.Length ==> containers[j] == rows[j]
        invariant forall id :: id in live <==> Runs(rows[..i], id)
      {
        var row := containers[i];
        assert rows[..i + 1] == rows[..i] + [row];
        RunsNext(rows[..i], row);
        var now := Now();
        checks := checks + [now];
        if row.state == "running" {
          live := live + {row.id};
          if row.id in statsCache && now - statsCache[row.id].at < FRESH_SECONDS {
            containers[i] := row.(sample := statsCache[row.id].sample);
          } else {
            pending := pending + [i];
          }
        }
      }
      assert rows[..containers.Length] == rows;
    }

    /** Forgets every container that is not running now. */
    method Prune(live: set<string>)
      modifies this`statsCache
      ensures statsCache == map id | id in old(statsCache) && id in live :: old(statsCache)[id]
    {
      var rest := statsCache.Keys;
      while rest != {}
        invariant rest <= statsCache.Keys <= old(statsCache).Keys
        invariant forall id :: id in statsCache ==> statsCache[id] == old(statsCache)[id]
        invariant forall id :: id in old(statsCache) ==> (id in statsCache <==> id in rest || id in live)
        decreases |rest|
      {
        var id :| id in rest;
        rest := rest - {id};
        if id !in live {
          statsCache := statsCache - {id};
        }
      }
    }

    /** Remembers the samples that were read successfully. */
    method Keep(containers: array<Row>, completed: seq<nat>, succeeded: array<bool>)
      requires succeeded.Length == containers.Length
      requires forall k :: 0 <= k < |completed| ==> completed[k] < containers.Length
      modifies this
      ensures forall id :: id in old(statsCache) ==> id in statsCache
      ensures forall k :: 0 <= k < |completed| && succeeded[completed[k]] ==> containers[completed[k]].id in statsCache
      ensures forall id :: id in statsCache ==>
                             || (id in old(statsCache) && statsCache[id] == old(statsCache)[id]
                                 && NoneKept(containers[..], completed, succeeded[..], |completed|, id))
                             || exists k :: 0 <= k < |completed| && succeeded[completed[k]] &&
                                            IsKept(containers[completed[k]], id, statsCache[id], old(clock))
    {
      for n := 0 to |completed|
        invariant clock >= old(clock)
        invariant forall id :: id in old(statsCache) ==> id in statsCache
        invariant forall k :: 0 <= k < n && succeeded[completed[k]] ==> containers[completed[k]].id in statsCache
        invariant forall id :: id in statsCache ==>
                                 || (id in old(statsCache) && statsCache[id] == old(statsCache)[id]
                                     && NoneKept(containers[..], completed, succeeded[..], n, id))
                                 || exists k :: 0 <= k < n && succeeded[completed[k]] &&
                                                IsKept(containers[completed[k]], id, statsCache[id], old(clock))
      {
        var i := completed[n];
        if succeeded[i] {
          var now := Now();
          statsCache := statsCache[containers[i].id := Cached(containers[i].sample, now)];
          assert IsKept(containers[completed[n]], containers[i].id, statsCache[containers[i].id], old(clock));
        }
      }
    }

    /** Reads the stale rows and remembers what succeeded. */
    method ReadStale(containers: array<Row>, pending: seq<nat>)
      returns (ghost readIndices: seq<nat>, ghost answers: map<nat, Option<Sample>>, ghost cancelled: bool)
      requires Increasing(pending) && forall a :: 0 <= a < |pending| ==> pending[a] < containers.Length
      modifies this, containers
      ensures Distinct(readIndices) && forall i: nat :: i in answers <==> i in readIndices
      ensures forall i: nat :: i in answers ==> i in pending && i < containers.Length
      ensures !cancelled ==> forall i: nat :: i in pending ==> i in answers
      ensures forall i: nat :: i < containers.Length ==>
                  containers[i] == Sampled(old(containers[i]), AnswerOf(answers, i))
      ensures forall id :: id in old(statsCache) ==> id in statsCache
      ensures forall i: nat :: i in answers && answers[i].Some? ==> old(containers[i]).id in statsCache
      ensures forall id :: id in statsCache ==>
                  EntryIsRight(id, statsCache[id], old(statsCache), old(containers[..]), answers, old(clock))
    {
      hide Distinct, Increasing, EntryIsRight;
      var completed, succeeded;
      completed, succeeded, readIndices, answers, cancelled := RunPool(containers, pending);
      assert forall k :: 0 <= k < |completed| ==> completed[k] == pending[k] && completed[k] in completed;
      Keep(containers, completed, succeeded);
      forall id | id in statsCache
        ensures EntryIsRight(id, statsCache[id], old(statsCache), old(containers[..]), answers, old(clock))
      {
        assert forall i: nat :: i in answers && answers[i].Some? ==> i in completed && succeeded[i];
        RightEntry(id, statsCache[id], old(statsCache), containers[..], old(containers[..]),
                   completed, succeeded[..], answers, old(clock));
      }
    }

    /** Under every schedule of the workers and any cancellation: a row shows the cached sample if that is
        fresh, the answer of its own single read if there was a successful one, and is unchanged otherwise;
        the cache then holds the successful reads, and old samples of running containers without one. */
    method SampleContainerStats(containers: array<Row>)
      returns (ghost checks: seq<int>, ghost readIndices: seq<nat>, ghost answers: map<nat, Option<Sample>>,
               ghost cancelled: bool)
      modifies this, containers
      ensures |checks| == containers.Length && forall i :: 0 <= i < |checks| ==> checks[i] >= old(clock)
      ensures Distinct(readIndices) && forall i: nat :: i in answers <==> i in readIndices
      ensures forall i: nat :: i in answers ==>
                  i < containers.Length && NeedsRead(old(statsCache), old(containers[i]), checks[i])
      ensures !cancelled ==>
                forall i: nat :: i < containers.Length && NeedsRead(old(statsCache), old(containers[i]), checks[i]) ==>
                                   i in answers
      ensures forall i: nat :: i < containers.Length ==>
                containers[i] == Sampled(Served(old(statsCache), old(containers[i]), checks[i]), AnswerOf(answers, i))
      ensures forall i: nat :: i < containers.Length ==>
                  SampledRow(old(containers[i]), containers[i], old(statsCache), checks[i], AnswerOf(answers, i))
      ensures forall id :: id in statsCache ==> Runs(old(containers[..]), id)
      ensures forall i: nat :: i in answers && answers[i].Some? ==> old(containers[i]).id in statsCache
      ensures forall id :: id in statsCache ==>
                  EntryIsRight(id, statsCache[id], old(statsCache), old(containers[..]), answers, old(clock))
    {
      hide Distinct, Increasing, EntryIsRight;
      var live, pending;
      live, pending, checks := Plan(containers);
      Prune(live);
      ghost var served, pruned, since := containers[..], statsCache, clock;
      assert forall a :: 0 <= a < |pending| ==> pending[a] in pending;
      readIndices, answers, cancelled := ReadStale(containers, pending);
      forall id | id in statsCache
        ensures EntryIsRight(id, statsCache[id], old(statsCache), old(containers[..]), answers, old(clock))
        ensures Runs(old(containers[..]), id)
      {
        StillRight(id, statsCache[id], pruned, old(statsCache), served, old(containers[..]), answers, since,
                   old(clock));
      }
    }
  }

  /** A row that does not run stays as it is; one with a sample younger than five seconds shows that and
      is not read; any other shows its own answer, or stays as it is. */
  ghost predicate SampledRow(before: Row, after: Row, cache: map<string, Cached>, check: int, answer: Option<Sample>) {
    && after.id == before.id && after.state == before.state
    && (before.state != "running" ==> after == before && answer == None)
    && (before.state == "running" ==>
          if before.id in cache && check - cache[before.id].at < 5 then
            after.sample == cache[before.id].sample && answer == None
          else after.sample == if answer.Some? then answer.value else before.sample)
  }

  /** An entry is a successful read of the container, or an old one of a container without such a read. */
  ghost predicate EntryIsRight(id: string, entry: Cached, before: map<string, Cached>, rows: seq<Row>,
                               answers: map<nat, Option<Sample>>, since: int) {
    || (id in before && entry == before[id]
        && forall i: nat :: i in answers && i < |rows| && answers[i].Some? ==> rows[i].id != id)
    || exists i: nat :: i in answers && i < |rows| && IsAnswer(rows[i], answers[i], id, entry, since)
  }

  /** An entry kept from a completed row is that row's answer. */
  lemma RightEntry(id: string, entry: Cached, before: map<string, Cached>, rows: seq<Row>, original: seq<Row>,
                   completed: seq<nat>, succeeded: seq<bool>, answers: map<nat, Option<Sample>>, since: int)
    requires |rows| == |original| == |succeeded| && forall k :: 0 <= k < |completed| ==> completed[k] < |rows|
    requires forall i: nat :: i in answers <==> i in completed
    requires forall i: nat :: i < |rows| ==> rows[i] == Sampled(original[i], AnswerOf(answers, i))
    requires forall i: nat :: i < |rows| ==> (succeeded[i] <==> AnswerOf(answers, i).Some?)
    requires || (id in before && entry == before[id] && NoneKept(rows, completed, succeeded, |completed|, id))
             || exists k :: 0 <= k < |completed| && succeeded[completed[k]]
                  && IsKept(rows[completed[k]], id, entry, since)
    ensures EntryIsRight(id, entry, before, original, answers, since)
  {
    if k :| 0 <= k < |completed| && succeeded[completed[k]] && IsKept(rows[completed[k]], id, entry, since) {
      var i := completed[k];
      assert i in completed && IsAnswer(original[i], answers[i], id, entry, since);
    } else {
      forall i: nat | i in answers && i < |original| && answers[i].Some? ensures original[i].id != id {
        var k :| 0 <= k < |completed| && completed[k] == i;
      }
    }
  }

  lemma StillRight(id: string, entry: Cached, pruned: map<string, Cached>, before: map<string, Cached>,
                   served: seq<Row>, rows: seq<Row>,
                   answers: map<nat, Option<Sample>>, since: int, earlier: int)
    requires EntryIsRight(id, entry, pruned, served, answers, since) && earlier <= since
    requires |served| == |rows| && forall i :: 0 <= i < |rows| ==> served[i].id == rows[i].id
    requires id in pruned ==> id in before && pruned[id] == before[id] && Runs(rows, id)
    requires forall i: nat :: i in answers ==> i < |rows| && rows[i].state == "running"
    ensures EntryIsRight(id, entry, before, rows, answers, earlier) && Runs(rows, id)
  {
    if i: nat :| i in answers && i < |served| && IsAnswer(served[i], answers[i], id, entry, since) {
      assert IsAnswer(rows[i], answers[i], id, entry, earlier);
      assert rows[i].state == "running" && rows[i].id == id;
    }
  }

  // ----- what the cache decides -------------------------------------------------------------------

  predicate IsFresh(cache: map<string, Cached>, id: string, now: int) {
    id in cache && now - cache[id].at < 5
  }

  function Served(cache: map<string, Cached>, row: Row, now: int): Row {
    if row.state == "running" && IsFresh(cache, row.id, now) then row.(sample := cache[row.id].sample) else row
  }

  predicate NeedsRead(cache: map<string, Cached>, row: Row, now: int) {
    row.state == "running" && !IsFresh(cache, row.id, now)
  }

  /** A container of this call runs under this identifier. */
  ghost predicate Runs(rows: seq<Row>, id: string) {
    exists i :: 0 <= i < |rows| && rows[i].state == "running" && rows[i].id == id
  }

  lemma RunsNext(rows: seq<Row>, row: Row)
    ensures forall id :: Runs(rows + [row], id) <==> Runs(rows, id) || (row.state == "running" && row.id == id)
  {
    forall id ensures Runs(rows + [row], id) <==> Runs(rows, id) || (row.state == "running" && row.id == id) {
      if Runs(rows, id) {
        var i :| 0 <= i < |rows| && rows[i].state == "running" && rows[i].id == id;
        assert (rows + [row])[i] == rows[i];
      }
      if row.state == "running" && row.id == id {
        assert (rows + [row])[|rows|] == row;
      }
    }
  }

  /** None of the first `n` completed rows is a successful read of this container. */
  ghost predicate NoneKept(rows: seq<Row>, completed: seq<nat>, succeeded: seq<bool>, n: nat, id: string)
    requires n <= |completed| && |succeeded| == |rows| && forall k :: 0 <= k < |completed| ==> completed[k] < |rows|
  {
    forall k :: 0 <= k < n && succeeded[completed[k]] ==> rows[completed[k]].id != id
  }

  predicate IsKept(row: Row, id: string, entry: Cached, since: int) {
    row.id == id && entry.sample == row.sample && entry.at >= since
  }

  predicate IsAnswer(row: Row, answer: Option<Sample>, id: string, entry: Cached, since: int) {
    row.id == id && answer == Some(entry.sample) && entry.at >= since
  }
}
