/** One-time tickets: a preview issues one, a confirmation consumes it. The table is shared by all
    requests and guarded by one mutex, so its operations are atomic steps of a run. */
module Tickets {
  import opened Options
  import opened Sets

  /** The content of the confirmed plan enters only through its fingerprint. Times are nanoseconds. */
  datatype Ticket = Ticket(key: string, fingerprint: string, expires: int)

  const MAX_TICKETS := 64

  const LIFETIME := 600_000_000_000

  type Table = map<string, Ticket>

  /** Every ticket expired at `start` is gone, and only tickets expired at `stop` are. */
  ghost predicate Purged(before: Table, after: Table, start: int, stop: int) {
    && after.Keys <= before.Keys
    && (forall t :: t in after ==> after[t] == before[t] && start <= after[t].expires)
    && (forall t :: t in before && t !in after ==> before[t].expires < stop)
  }

  /** What happens to the table, with the times at which the clock was read; Idle is a request that is
      answered before it reaches the table. */
  datatype Op =
    | Idle
    | Issue(token: string, key: string, fingerprint: string, start: int, stop: int, accepted: bool)
    | Redeem(token: string, key: string, now: int, found: Option<Ticket>, accepted: bool)

  predicate Redeemable(found: Option<Ticket>, key: string, now: int) {
    found.Some? && found.value.key == key && now <= found.value.expires
  }

  /** What an issue leaves behind once the expired tickets are gone. */
  ghost predicate IssuedAfter(before: Table, purged: Table, after: Table, op: Op)
    requires op.Issue?
  {
    && Purged(before, purged, op.start, op.stop) && op.start <= op.stop
    && op.accepted == (|purged| < 64)
    && after == (if op.accepted then purged[op.token := Ticket(op.key, op.fingerprint, op.stop + 600_000_000_000)]
                 else purged)
  }

  ghost predicate Step(before: Table, op: Op, after: Table) {
    match op
    case Idle => after == before
    case Issue(token, key, fingerprint, start, stop, accepted) =>
      exists purged :: IssuedAfter(before, purged, after, op)
    case Redeem(token, key, now, found, accepted) =>
      && found == (if token in before then Some(before[token]) else None)
      && after == before - {token}
      && accepted == Redeemable(found, key, now)
  }

  class TicketTable {
    var tickets: Table

    constructor ()
      ensures tickets == map[]
    {
      tickets := map[];
    }

    /** Drops expired tickets; `clock` is the time at each reading, and never runs backwards. */
    method Purge(clock: nat -> int) returns (ticks: nat)
      requires forall i: nat, j: nat :: i <= j ==> clock(i) <= clock(j)
      modifies this
      ensures Purged(old(tickets), tickets, clock(0), clock(ticks))
    {
      ticks := 0;
      ghost var before := tickets;
      var rest := tickets.Keys;
      while rest != {}
        invariant rest <= tickets.Keys
        invariant tickets.Keys <= before.Keys
        invariant forall t :: t in tickets ==>
                      tickets[t] == before[t] && (t !in rest ==> clock(0) <= tickets[t].expires)
        invariant forall t :: t in before && t !in tickets ==> before[t].expires < clock(ticks)
        decreases |rest|
      {
        var t :| t in rest;
        if clock(ticks) > tickets[t].expires {
          tickets := tickets - {t};
        }
        rest := rest - {t};
        ticks := ticks + 1;
      }
    }

    /** The table part of a preview. */
    method Issue(token: string, key: string, fingerprint: string, clock: nat -> int)
      returns (accepted: bool, ghost start: int, ghost stop: int)
      requires forall i: nat, j: nat :: i <= j ==> clock(i) <= clock(j)
      modifies this
      ensures Step(old(tickets), Op.Issue(token, key, fingerprint, start, stop, accepted), tickets)
    {
      hide Purged;
      ghost var before := tickets;
      var ticks := Purge(clock);
      start, stop := clock(0), clock(ticks);
      ghost var purged := tickets;
      accepted := |tickets| < MAX_TICKETS;
      if accepted {
        tickets := tickets[token := Ticket(key, fingerprint, clock(ticks) + LIFETIME)];
      }
      assert IssuedAfter(before, purged, tickets, Op.Issue(token, key, fingerprint, start, stop, accepted));
    }

    /** The table part of a confirmation: the ticket is gone whatever is decided about it. */
    method Redeem(token: string, key: string, now: int) returns (found: Option<Ticket>, accepted: bool)
      modifies this
      ensures Step(old(tickets), Op.Redeem(token, key, now, found, accepted), tickets)
    {
      found := if token in tickets then Some(tickets[token]) else None;
      tickets := tickets - {token};
      accepted := Redeemable(found, key, now);
    }
  }

  // ----- whole runs -----------------------------------------------------------------------------------

  ghost predicate IsRun(tables: seq<Table>, ops: seq<Op>) {
    && |tables| == |ops| + 1 && tables[0] == map[]
    && forall i :: 0 <= i < |ops| ==> Step(tables[i], ops[i], tables[i + 1])
  }

  /** Random tokens never repeat. */
  ghost predicate NewTokens(ops: seq<Op>) {
    forall i, j :: 0 <= i < j < |ops| && ops[i].Issue? && ops[j].Issue? ==> ops[i].token != ops[j].token
  }

  /** The issue that a ticket in the table comes from, with no attempt to redeem it since. */
  ghost predicate Issued(ops: seq<Op>, i: nat, k: nat, token: string, ticket: Ticket) {
    && i < k <= |ops| && ops[i].Issue? && ops[i].accepted && ops[i].token == token
    && ticket == Ticket(ops[i].key, ops[i].fingerprint, ops[i].stop + 600_000_000_000)
    && forall j :: i < j < k && ops[j].Redeem? ==> ops[j].token != token
  }

  lemma {:induction false} TicketsAreIssued(tables: seq<Table>, ops: seq<Op>, k: nat, token: string) returns (i: nat)
    requires IsRun(tables, ops) && NewTokens(ops) && k <= |ops| && token in tables[k]
    ensures Issued(ops, i, k, token, tables[k][token])
  {
    var op := ops[k - 1];
    assert Step(tables[k - 1], op, tables[k]);
    if op.Issue? && op.token == token && op.accepted {
      i := k - 1;
    } else {
      i := TicketsAreIssued(tables, ops, k - 1, token);
    }
  }

  /** The ticket of this issue is still in the table at step `n` if nobody has tried to redeem it and it
      had not expired when the table was last purged. */
  lemma {:induction false} TicketStays(tables: seq<Table>, ops: seq<Op>, i: nat, n: nat, now: int)
    requires IsRun(tables, ops) && NewTokens(ops) && i < n <= |ops| && ops[i].Issue? && ops[i].accepted
    requires now <= ops[i].stop + 600_000_000_000
    requires forall j :: i < j < n && ops[j].Redeem? ==> ops[j].token != ops[i].token
    requires forall j :: i < j < n && ops[j].Issue? ==> ops[j].stop <= now
    ensures ops[i].token in tables[n]
    ensures tables[n][ops[i].token] == Ticket(ops[i].key, ops[i].fingerprint, ops[i].stop + 600_000_000_000)
  {
    assert Step(tables[n - 1], ops[n - 1], tables[n]);
    if n - 1 > i {
      TicketStays(tables, ops, i, n - 1, now);
    }
  }

  /** No ticket is refused that should pass: the first attempt to redeem an issued ticket passes if it is
      for the ticket's project and comes within ten minutes. */
  lemma ValidTicketPasses(tables: seq<Table>, ops: seq<Op>, i: nat, k: nat)
    requires IsRun(tables, ops) && NewTokens(ops) && i < k < |ops| && ops[i].Issue? && ops[i].accepted
    requires ops[k].Redeem? && ops[k].token == ops[i].token && ops[k].key == ops[i].key
    requires ops[k].now <= ops[i].stop + 600_000_000_000
    requires forall j :: i < j < k && ops[j].Redeem? ==> ops[j].token != ops[k].token
    requires forall j :: i < j < k && ops[j].Issue? ==> ops[j].stop <= ops[k].now
    ensures ops[k].accepted && ops[k].found.Some? && ops[k].found.value.fingerprint == ops[i].fingerprint
  {
    TicketStays(tables, ops, i, k, ops[k].now);
    assert Step(tables[k], ops[k], tables[k + 1]);
  }

  /** In every reachable state the table holds at most 64 tickets. */
  lemma {:induction false} TableIsBounded(tables: seq<Table>, ops: seq<Op>, k: nat)
    requires IsRun(tables, ops) && k <= |ops|
    ensures |tables[k]| <= 64
  {
    hide Step;
    if k > 0 {
      TableIsBounded(tables, ops, k - 1);
      StepKeepsBound(tables[k - 1], ops[k - 1], tables[k]);
    }
  }

  lemma StepKeepsBound(before: Table, op: Op, after: Table)
    requires |before| <= MAX_TICKETS && Step(before, op, after)
    ensures |after| <= MAX_TICKETS
  {
    hide IssuedAfter;
    match op
    case Idle =>
    case Issue(_, _, _, _, _, _) =>
      var purged :| IssuedAfter(before, purged, after, op);
      IssueKeepsBound(before, purged, after, op);
    case Redeem(_, _, _, _, _) =>
      SmallerDomain(after, before);
  }

  lemma IssueKeepsBound(before: Table, purged: Table, after: Table, op: Op)
    requires op.Issue? && |before| <= MAX_TICKETS && IssuedAfter(before, purged, after, op)
    ensures |after| <= MAX_TICKETS
  {
    SmallerDomain(purged, before);
    if op.accepted {
      OneMore(purged, op.token, after[op.token]);
    }
  }

  lemma OneMore(table: Table, token: string, ticket: Ticket)
    ensures |table[token := ticket]| <= |table| + 1
  {
    var more := table[token := ticket];
    assert more.Keys == table.Keys + {token};
    assert |more.Keys| == |more| && |table.Keys| == |table|;
  }

  lemma SmallerDomain(a: Table, b: Table)
    requires a.Keys <= b.Keys
    ensures |a| <= |b|
  {
    SubsetSize(a.Keys, b.Keys);
  }

  /** A confirmation that passes uses a ticket some preview issued for the same project, with the
      fingerprint it is then compared with, and no more than ten minutes before. */
  lemma RedeemedWasIssued(tables: seq<Table>, ops: seq<Op>, k: nat) returns (i: nat)
    requires IsRun(tables, ops) && NewTokens(ops) && k < |ops| && ops[k].Redeem? && ops[k].accepted
    ensures ops[k].found.Some? && Issued(ops, i, k, ops[k].token, ops[k].found.value)
    ensures ops[i].key == ops[k].key && ops[k].now <= ops[i].stop + 600_000_000_000
  {
    assert Step(tables[k], ops[k], tables[k + 1]);
    i := TicketsAreIssued(tables, ops, k, ops[k].token);
  }

  /** A token passes at most the first attempt made after it was issued: once anybody has tried to
      redeem it, accepted or rejected, no later attempt passes. */
  lemma RedeemedOnce(tables: seq<Table>, ops: seq<Op>, i: nat, j: nat, k: nat)
    requires IsRun(tables, ops) && NewTokens(ops) && i < j < k < |ops|
    requires ops[i].Issue? && ops[j].Redeem? && ops[k].Redeem? && ops[i].token == ops[j].token == ops[k].token
    ensures !ops[k].accepted
  {
    if ops[k].accepted {
      var issue := RedeemedWasIssued(tables, ops, k);
    }
  }

  /** In particular no token lets two confirmations pass. */
  lemma NeverTwice(tables: seq<Table>, ops: seq<Op>, j: nat, k: nat)
    requires IsRun(tables, ops) && NewTokens(ops) && j < k < |ops|
    requires ops[j].Redeem? && ops[k].Redeem? && ops[j].token == ops[k].token
    ensures !(ops[j].accepted && ops[k].accepted)
  {
    if ops[j].accepted {
      var i := RedeemedWasIssued(tables, ops, j);
      RedeemedOnce(tables, ops, i, j, k);
    }
  }
}
