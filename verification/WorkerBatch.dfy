/** One worker's batch as a program over the store, and systems of batches as runs of the store. */
module WorkerBatch {
  import opened Prelude
  import opened Campaign
  import opened Store
  import opened StoreRuns
  import opened StoreObject
  import opened Worker

  /** What the oracle answers for the k-th lease, and the time of its completion. */
  type Answers = nat -> (Outcome, int)

  function NextAll(m: Manifest, sys: System, moves: seq<Move>): (r: System)
    requires Fits(m, sys.trace.db)
    ensures Fits(m, r.trace.db)
  {
    if moves == [] then sys
    else Next(m, NextAll(m, sys, moves[..|moves| - 1]), moves[|moves| - 1])
  }

  lemma NextAllSnoc(m: Manifest, sys: System, moves: seq<Move>, move: Move)
    requires Fits(m, sys.trace.db)
    ensures NextAll(m, sys, moves + [move]) == Next(m, NextAll(m, sys, moves), move)
  {
    assert (moves + [move])[..|moves|] == moves;
  }

  lemma {:induction false} ExecuteThen(m: Manifest, createdAt: int, first: seq<Move>, second: seq<Move>)
    ensures Execute(m, createdAt, first + second) == NextAll(m, Execute(m, createdAt, first), second)
  {
    hide Next;
    if second == [] {
      assert first + second == first;
    } else {
      var n := |second| - 1;
      ExecuteThen(m, createdAt, first, second[..n]);
      assert (first + second)[..|first| + n] == first + second[..n];
    }
  }

  /** The records a batch writes for its first n tickets. */
  function RecordsOf(m: Manifest, tickets: seq<Ticket>, answers: Answers, n: nat): (r: seq<Record>)
    requires n <= |tickets|
    ensures |r| == n
  {
    seq(n, k requires 0 <= k < n => RecordFor(m, tickets[k], VerdictFor(tickets[k].estimate, answers(k).0)))
  }

  /**
   * execute_campaign_batch: lease, then complete and record each lease in turn. It performs a
   * sequence of the system's moves; if no completion raises it records every ticket and returns.
   */
  method ExecuteBatch(store: CampaignStore, request: LeaseRequest, answers: Answers, ghost sys: System)
    returns (written: seq<Record>, returned: bool, ghost moves: seq<Move>, ghost tickets: seq<Ticket>)
    requires store.Valid() && sys.trace.db == store.Contents()
    modifies store
    ensures store.Valid()
    ensures var sys' := NextAll(store.manifest, sys, moves);
      && store.Contents() == sys'.trace.db
      && sys'.records == sys.records + AsSet(written)
      && |sys'.batches| == |sys.batches| + 1
      && (returned <==> sys'.batches[|sys.batches|].status.Returned?)
      && (forall b | 0 <= b < |sys.batches| :: sys'.batches[b] == sys.batches[b])
    ensures |written| <= |tickets| && written == RecordsOf(store.manifest, tickets, answers, |written|)
    ensures returned <==> Plan(store.manifest, old(store.Contents()), Lease(request)).Ok? && |written| == |tickets|
  {
    hide Next, Plan, PlanLease, PlanReclaim, Step, VerdictFor, Recording, RecordsOf, NextAll, AsSet;
    var m := store.manifest;
    var b := |sys.batches|;
    var r := store.LeaseCells(request);
    written, returned, moves, tickets := [], false, [Begin(request)], [];
    BatchBegins(m, sys, request, answers);
    if r.Err? {
      return;
    }
    var leases := r.value;
    tickets := leases;
    for k := 0 to |leases|
      invariant store.Valid() && Recording(m, store.Contents(), sys, moves, leases, answers, k, written)
    {
      RecordingFacts(m, store.Contents(), sys, moves, leases, answers, k, written);
      RecordOne(m, sys, moves, leases, answers, k, written);
      var t := leases[k];
      var verdict := VerdictFor(t.estimate, answers(k).0);
      var done := store.CompleteLease(t.cell, t.worker, t.token, verdict.next, verdict.reason, verdict.cost,
                                      verdict.EventArtifact(), answers(k).1);
      moves := moves + [Move.Complete(b, answers(k).0, answers(k).1)];
      if done.Err? {
        return;
      }
      moves := moves + [Write(b)];
      written := written + [RecordFor(m, t, verdict)];
    }
    RecordingFacts(m, store.Contents(), sys, moves, leases, answers, |leases|, written);
    BatchReturns(m, sys, moves, leases, answers, written);
    moves := moves + [Return(b)];
    returned := true;
  }

  lemma BatchBegins(m: Manifest, sys: System, request: LeaseRequest, answers: Answers)
    requires Fits(m, sys.trace.db)
    ensures var db := sys.trace.db;
      var now := NextAll(m, sys, [Begin(request)]);
      && now.trace.db == Step(m, db, Lease(request))
      && AsSet<Record>([]) == {}
      && match Plan(m, db, Lease(request))
         case Err(_) => now == sys.(batches := sys.batches + [Batch(Aborted, [], None)])
         case Ok(_) =>
           PlanReclaim(m, db, request.at).Ok? &&
           var base := |db.events| + |PlanReclaim(m, db, request.at).value|;
           && base <= |now.trace.db.events|
           && Recording(m, now.trace.db, sys, [Begin(request)],
                        TicketsFrom(m, now.trace.db.events, base, request.seconds), answers, 0, [])
  {
    hide PlanReclaim, PlanGreedy, After, DoAll, TicketsFrom, VerdictFor;
    NextAllSnoc(m, sys, [], Begin(request));
    assert [] + [Begin(request)] == [Begin(request)];
    var now := NextAll(m, sys, [Begin(request)]);
    assert sys.records + AsSet<Record>([]) == sys.records;
    if PlanLease(m, sys.trace.db, request).Ok? {
      var tickets := now.batches[|sys.batches|].pending;
      assert tickets[0..] == tickets;
      assert RecordsOf(m, tickets, answers, 0) == [];
    }
  }

  lemma BatchReturns(m: Manifest, sys: System, moves: seq<Move>, tickets: seq<Ticket>, answers: Answers,
                     written: seq<Record>)
    requires Fits(m, sys.trace.db)
    requires Recording(m, NextAll(m, sys, moves).trace.db, sys, moves, tickets, answers, |tickets|, written)
    ensures var now := NextAll(m, sys, moves);
      NextAll(m, sys, moves + [Return(|sys.batches|)])
        == now.(batches := sys.batches + [Batch(Returned, [], None)])
  {
    hide NextAll;
    NextAllSnoc(m, sys, moves, Return(|sys.batches|));
    assert tickets[|tickets|..] == [];
    var now, b := NextAll(m, sys, moves), |sys.batches|;
    assert now.batches[b := now.batches[b].(status := Returned)] == sys.batches + [Batch(Returned, [], None)];
  }

  lemma RecordingFacts(m: Manifest, db: Db, sys: System, moves: seq<Move>, tickets: seq<Ticket>, answers: Answers,
                       k: nat, written: seq<Record>)
    requires Fits(m, sys.trace.db) && Recording(m, db, sys, moves, tickets, answers, k, written)
    ensures var now := NextAll(m, sys, moves);
      && now.trace.db == db && now.records == sys.records + AsSet(written)
      && k <= |tickets| && written == RecordsOf(m, tickets, answers, k) && |written| == k
  {
  }

  /** The loop's state: k tickets recorded, the others pending. */
  ghost predicate Recording(m: Manifest, db: Db, sys: System, moves: seq<Move>, tickets: seq<Ticket>, answers: Answers,
                            k: nat, written: seq<Record>)
    requires Fits(m, sys.trace.db)
  {
    var now := NextAll(m, sys, moves);
    var b := |sys.batches|;
    && k <= |tickets|
    && now.trace.db == db
    && now.records == sys.records + AsSet(written)
    && now.batches == sys.batches + [Batch(Running, tickets[k..], None)]
    && written == RecordsOf(m, tickets, answers, k)
  }

  /** Completing and recording one more ticket, or being refused. */
  lemma RecordOne(m: Manifest, sys: System, moves: seq<Move>, tickets: seq<Ticket>, answers: Answers, k: nat,
                  written: seq<Record>)
    requires Fits(m, sys.trace.db) && k < |tickets|
    requires Recording(m, NextAll(m, sys, moves).trace.db, sys, moves, tickets, answers, k, written)
    ensures var now := NextAll(m, sys, moves);
      var b, t, at := |sys.batches|, tickets[k], answers(k).1;
      var verdict := VerdictFor(t.estimate, answers(k).0);
      var call := CompletionCall(t, verdict, at);
      var completed := moves + [Move.Complete(b, answers(k).0, at)];
      var db' := Step(m, now.trace.db, call);
      if Plan(m, now.trace.db, call).Err? then
        && db' == now.trace.db
        && NextAll(m, sys, completed)
             == now.(batches := sys.batches + [Batch(Aborted, tickets[k..], None)])
      else
        Recording(m, db', sys, completed + [Write(b)], tickets, answers, k + 1, written + [RecordFor(m, t, verdict)])
  {
    hide Plan, VerdictFor, After, NextAll, DoAll;
    var now := NextAll(m, sys, moves);
    var b, t, at := |sys.batches|, tickets[k], answers(k).1;
    var verdict := VerdictFor(t.estimate, answers(k).0);
    var call := CompletionCall(t, verdict, at);
    var move := Move.Complete(b, answers(k).0, at);
    var record := RecordFor(m, t, verdict);
    NextAllSnoc(m, sys, moves, move);
    NextAllSnoc(m, sys, moves + [move], Write(b));
    assert tickets[k..][0] == t && tickets[k..][1..] == tickets[k + 1..];
    assert now.batches[b].pending[0] == t;
    if Plan(m, now.trace.db, call).Err? {
      assert now.batches[b := now.batches[b].(status := Aborted)] == sys.batches + [Batch(Aborted, tickets[k..], None)];
    } else {
      var mid := Next(m, now, move);
      assert mid.batches[b] == Batch(Running, tickets[k..], Some(record));
      var end := Next(m, mid, Write(b));
      assert end.batches == sys.batches + [Batch(Running, tickets[k + 1..], None)];
      assert AsSet(written + [record]) == AsSet(written) + {record};
    }
  }

  // ---------------------------------------------------------------- a system is a run of the store

  /** The store calls a move makes. */
  function CallsOf(sys: System, move: Move): seq<Call> {
    if !Possible(sys, move) then []
    else
      match move
      case Begin(request) => [Lease(request)]
      case Complete(b, outcome, at) =>
        var t := sys.batches[b].pending[0];
        [CompletionCall(t, VerdictFor(t.estimate, outcome), at)]
      case Other(call) => [call]
      case _ => []
  }

  function AllCalls(m: Manifest, createdAt: int, moves: seq<Move>): seq<Call> {
    if moves == [] then []
    else
      var n := |moves| - 1;
      AllCalls(m, createdAt, moves[..n]) + CallsOf(Execute(m, createdAt, moves[..n]), moves[n])
  }

  lemma MoveCalls(m: Manifest, sys: System, move: Move)
    requires Fits(m, sys.trace.db)
    ensures var calls := CallsOf(sys, move);
      && |calls| <= 1
      && Next(m, sys, move).trace == if calls == [] then sys.trace else After(m, sys.trace, calls[0])
  {
    hide PlanReclaim, PlanGreedy, VerdictFor, Harmless, DoAll, ExtendAll, LeaseError, TicketsFrom;
  }

  /** Whatever the workers do, the store has been through a run of its own calls. */
  lemma {:induction false} SystemIsARun(m: Manifest, createdAt: int, moves: seq<Move>)
    ensures Execute(m, createdAt, moves).trace == Run(m, createdAt, AllCalls(m, createdAt, moves))
  {
    hide Next, After, CallsOf, Start;
    if moves != [] {
      var n := |moves| - 1;
      SystemIsARun(m, createdAt, moves[..n]);
      var sys := Execute(m, createdAt, moves[..n]);
      var calls := AllCalls(m, createdAt, moves[..n]);
      var more := CallsOf(sys, moves[n]);
      MoveCalls(m, sys, moves[n]);
      if more == [] {
        assert calls + more == calls;
      } else {
        RunSnoc(m, createdAt, calls, more[0]);
        assert more == [more[0]];
      }
    }
  }
}
