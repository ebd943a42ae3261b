/** A concrete system whose records do not match its events, although the store itself reconciles. */
module WorkerLimits {
  import opened Prelude
  import opened Campaign
  import opened Store
  import opened StoreRuns
  import opened StoreReconcile
  import opened StoreSafety
  import opened StoreLimits
  import opened Worker
  import opened WorkerReconcile
  import Money
  import Text

  /** A failed result whose trial names an artifact. */
  const CARRYING := RunnerReturned(RunResult(true, Some(Trial(Some("artifact"), NotReported)), None))

  /** Lease the one cell, complete it as failed, write the record and return. */
  function Moves(): seq<Move> {
    [Begin(LeaseAt("x", 0).request), Move.Complete(0, CARRYING, 1), Write(0), Return(0)]
  }

  const ISSUE := Issue(0, 0, 10, "w", "LEASE-x")
  const TICKET := Ticket(0, "w", "LEASE-x", 0, 10, 1, 1.0)

  /** After the first move one batch is running with one ticket. */
  lemma BegunSystem()
    ensures var sys := Execute(ONE_CELL, 0, Moves()[..1]);
      && sys.trace.db == Do(ONE_CELL, Start(ONE_CELL, 0).db, ISSUE)
      && sys.batches == [Batch(Running, [TICKET], None)] && sys.records == {}
  {
    hide PlanGreedy, Text.Strip;
    LeasedOne();
    var request := LeaseAt("x", 0).request;
    var start := Start(ONE_CELL, 0);
    var sys := Execute(ONE_CELL, 0, Moves()[..1]);
    assert Moves()[..1] == [Begin(request)] && [Begin(request)][..0] == [];
    assert sys == Next(ONE_CELL, System(start, [], {}), Begin(request));
    OneCellOrder();
    OneCellExpirations(start.db, 0);
    assert PlanReclaim(ONE_CELL, start.db, 0) == Ok([]);
    StepOne(ONE_CELL, start.db, LeaseAt("x", 0), ISSUE);
    var events := Do(ONE_CELL, start.db, ISSUE).events;
    assert sys.trace.db.events == events;
    assert TicketsFrom(ONE_CELL, events, 0, 10) == [TICKET];
  }

  function FailedCall(): Call {
    Call.Complete(0, "w", "LEASE-x", Failed, "generation-failed", 1.0, None, 1)
  }

  lemma CarryingVerdict()
    ensures VerdictFor(1.0, CARRYING) == Verdict(Failed, "generation-failed", 1.0, Some("artifact"))
    ensures CompletionCall(TICKET, VerdictFor(1.0, CARRYING), 1) == FailedCall()
    ensures Money.Round8(1.0) == 1.0
  {
    Money.Round8Units(100000000);
    assert Money.Units(100000000) == 1.0;
  }

  /** The store accepts that completion: it checks nothing about the trial. */
  lemma FailedCallAccepted()
    ensures Plan(ONE_CELL, Do(ONE_CELL, Start(ONE_CELL, 0).db, ISSUE), FailedCall()).Ok?
  {
    hide Text.Strip;
    Text.NotBlank("generation-failed");
    CarryingVerdict();
    var db := Do(ONE_CELL, Start(ONE_CELL, 0).db, ISSUE);
    var finish := Finish(0, 1, "w", "LEASE-x", Failed, "generation-failed", 1.0, None);
    assert Objection(DraftFor(ONE_CELL, db, finish)).None?;
  }

  lemma CompletionAccepted()
    ensures CompletesAt(ONE_CELL, 0, Moves(), 1)
  {
    hide Execute, Plan, VerdictFor;
    BegunSystem();
    FailedCallAccepted();
    CarryingVerdict();
  }

  /** The store reconciles after it. */
  lemma FailedRunReconciles()
    ensures Reconciled(ONE_CELL, Step(ONE_CELL, Do(ONE_CELL, Start(ONE_CELL, 0).db, ISSUE), FailedCall()))
  {
    hide Reconciled, Plan, Step, Do;
    LeasedOne();
    CarryingVerdict();
    RunSnoc(ONE_CELL, 0, [] + [LeaseAt("x", 0)], FailedCall());
    CleanRunReconciles(ONE_CELL, 0, [] + [LeaseAt("x", 0)] + [FailedCall()]);
  }

  /** Every batch has returned, the store reconciles, and yet the record does not match its event. */
  lemma FailedArtifactDoesNotMatch(records: seq<Record>)
    requires Lists(records, Execute(ONE_CELL, 0, Moves()).records)
    ensures var sys := Execute(ONE_CELL, 0, Moves());
      && Reconciled(ONE_CELL, sys.trace.db)
      && |sys.batches| == 1 && sys.batches[0].status.Returned?
      && !RecordsMatch(sys.trace.db.events, records)
  {
    hide Execute, RecordsMatch, Reconciled;
    CompletionAccepted();
    assert CarriesArtifact(Moves()[1].outcome);
    ReconciliationExact(ONE_CELL, 0, Moves(), records);
    EndsReconciled();
  }

  lemma EndsReconciled()
    ensures var sys := Execute(ONE_CELL, 0, Moves());
      Reconciled(ONE_CELL, sys.trace.db) && |sys.batches| == 1 && sys.batches[0].status.Returned?
  {
    hide Plan, VerdictFor, After, Step, Do, Reconciled, PlanLease, PlanReclaim;
    BegunSystem();
    FailedCallAccepted();
    FailedRunReconciles();
    CarryingVerdict();
    var moves := Moves();
    var s1 := Execute(ONE_CELL, 0, moves[..1]);
    var s2 := Next(ONE_CELL, s1, moves[1]);
    var s3 := Next(ONE_CELL, s2, Write(0));
    assert moves[..2][..1] == moves[..1] && moves[..3][..2] == moves[..2] && moves[..4] == moves;
    assert Execute(ONE_CELL, 0, moves[..2]) == s2;
    assert s2.trace.db == Step(ONE_CELL, s1.trace.db, FailedCall());
    assert Execute(ONE_CELL, 0, moves[..3]) == s3;
    assert s2.batches[0].unwritten.Some? && s2.batches[0].pending == [TICKET] && |s2.batches| == 1;
    assert Possible(s2, moves[2]) && s3.batches[0] == Batch(Running, [TICKET][1..], None);
    assert Possible(s3, moves[3]);
    assert Execute(ONE_CELL, 0, moves) == Next(ONE_CELL, s3, Return(0));
  }
}
