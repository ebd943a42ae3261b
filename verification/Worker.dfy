/**
 * Worker batches over the store: each lease is executed, completed and recorded, while other
 * workers, heartbeats and operators interleave. A record is written only after its terminal event.
 */
module Worker {
  import opened Prelude
  import opened Campaign
  import opened Store
  import opened StoreRuns
  import Money

  // ---------------------------------------------------------------- what an execution yields

  datatype Reported = NotReported | Malformed | Amount(value: real)

  datatype Trial = Trial(artifact: Option<string>, reported: Reported)

  datatype Score = Score(safeAndParseable: bool, nonblankRender: bool, judgeInputSafe: bool)

  /** The first trial, the first scorecard, and whether the runner listed a failure. */
  datatype RunResult = RunResult(failed: bool, trial: Option<Trial>, score: Option<Score>)

  datatype Outcome = TaskMissing | RunnerRaised | RunnerReturned(result: RunResult)

  /** What the adapter did for the one task: it raised, or it gave an output of some task and media type. */
  datatype Generation =
    | Raised
    | Generated(sameTask: bool, isSvg: bool, outputHash: string, reported: Reported, score: Score)

  /** The runner's one trial: scored and naming the hash of its output, or a failure naming nothing. */
  function RunBenchmark(g: Generation): RunResult {
    if g.Raised? || !g.sameTask || !g.isSvg then RunResult(true, Some(Trial(None, NotReported)), None)
    else RunResult(false, Some(Trial(Some(g.outputHash), g.reported)), Some(g.score))
  }

  function FailedGates(s: Score): string {
    var a := if s.safeAndParseable then [] else ["safe_and_parseable"];
    var b := if s.nonblankRender then [] else ["nonblank_render"];
    var c := if s.judgeInputSafe then [] else ["judge_input_safe"];
    Joined(a + b + c)
  }

  function Joined(names: seq<string>): string {
    if names == [] then "" else if |names| == 1 then names[0] else names[0] + "," + Joined(names[1..])
  }

  const GATES := "artifact-failed-retention-gates:"

  function TerminalOutcome(result: RunResult): (CellState, string) {
    if result.failed then (Failed, "generation-failed")
    else if result.trial.None? || result.score.None? then (Failed, "runner-produced-no-outcome")
    else if FailedGates(result.score.value) != "" then (Quarantined, GATES + FailedGates(result.score.value))
    else (Succeeded, "canonical-artifact-retained")
  }

  function CostFor(estimate: real, result: RunResult): real {
    if result.trial.Some? && result.trial.value.reported.Amount? && result.trial.value.reported.value >= 0.0 then
      Money.Round8(result.trial.value.reported.value)
    else Money.Round8(estimate)
  }

  datatype Verdict = Verdict(next: CellState, reason: string, cost: real, recordArtifact: Option<string>) {
    /** The completion names the artifact only if it is retained. */
    function EventArtifact(): Option<string> {
      if next == Succeeded || next == Quarantined then recordArtifact else None
    }
  }

  function VerdictFor(estimate: real, outcome: Outcome): Verdict {
    match outcome
    case TaskMissing => Verdict(Failed, "task-missing-from-worker-corpus", 0.0, None)
    case RunnerRaised => Verdict(Failed, "worker-infrastructure-failure", Money.Round8(estimate), None)
    case RunnerReturned(result) =>
      var (next, reason) := TerminalOutcome(result);
      Verdict(next, reason, CostFor(estimate, result), if result.trial.Some? then result.trial.value.artifact else None)
  }

  predicate WorkerReason(reason: string) {
    || reason == "task-missing-from-worker-corpus"
    || reason == "worker-infrastructure-failure"
    || reason == "generation-failed"
    || reason == "runner-produced-no-outcome"
    || reason == "canonical-artifact-retained"
    || GATES <= reason
  }

  /** A terminal event that a worker batch must account for with a record. */
  predicate WorkerTerminal(e: Payload) {
    e.next in {Succeeded, Failed, Quarantined} && e.worker.Some? && WorkerReason(e.reason)
  }

  lemma VerdictIsWorkerTerminal(estimate: real, outcome: Outcome)
    ensures var v := VerdictFor(estimate, outcome);
      && v.next in {Succeeded, Failed, Quarantined}
      && WorkerReason(v.reason)
      && Money.Round8(v.cost) == v.cost
  {
    Money.Round8Units(0);
    Money.Round8Fixed(estimate);
    if outcome.RunnerReturned? && outcome.result.trial.Some? && outcome.result.trial.value.reported.Amount? {
      Money.Round8Fixed(outcome.result.trial.value.reported.value);
    }
  }

  // ---------------------------------------------------------------- records

  datatype Record = Record(
    campaign: string,
    cell: CellId,
    worker: string,
    token: string,
    attempt: nat,
    next: CellState,
    reason: string,
    cost: real,
    artifact: Option<string>)

  datatype Key = Key(cell: CellId, token: string, attempt: nat)

  function RecordKey(r: Record): Key {
    Key(r.cell, r.token, r.attempt)
  }

  function RecordFor(m: Manifest, t: Ticket, v: Verdict): Record {
    Record(m.id, t.cell, t.worker, t.token, t.attempt, v.next, v.reason, v.cost, v.recordArtifact)
  }

  /** The event a record accounts for: same key, worker, state, reason and cost. */
  predicate Accounts(r: Record, e: Payload) {
    && WorkerTerminal(e)
    && e.token == Some(r.token) && e.cell == r.cell && e.attempt == r.attempt
    && e.campaign == r.campaign && e.worker == Some(r.worker)
    && e.next == r.next && e.reason == r.reason && e.actual == r.cost
    && e.artifact == (if r.next == Succeeded || r.next == Quarantined then r.artifact else None)
  }

  // ---------------------------------------------------------------- the system

  datatype Status = Running | Returned | Aborted

  /** One call of execute_campaign_batch: leases still to do, and a completed one not yet recorded. */
  datatype Batch = Batch(status: Status, pending: seq<Ticket>, unwritten: Option<Record>)

  datatype System = System(trace: Trace, batches: seq<Batch>, records: set<Record>)

  datatype Move =
    | Begin(request: LeaseRequest)
    | Complete(batch: nat, outcome: Outcome, at: int)
    | Write(batch: nat)
    | Return(batch: nat)
    | Abort(batch: nat)
    | Other(call: Call)

  /** Calls by heartbeats, supervisors and operators: anything but forging a worker's terminal event. */
  predicate Harmless(call: Call) {
    call.Complete? ==> !(call.next in {Succeeded, Failed, Quarantined} && WorkerReason(call.reason))
  }

  predicate RunningAt(sys: System, b: nat) {
    b < |sys.batches| && sys.batches[b].status.Running?
  }

  predicate Possible(sys: System, move: Move) {
    match move
    case Begin(_) => true
    case Complete(b, _, _) =>
      RunningAt(sys, b) && sys.batches[b].unwritten.None? && sys.batches[b].pending != []
    case Write(b) =>
      RunningAt(sys, b) && sys.batches[b].unwritten.Some? && sys.batches[b].pending != []
    case Return(b) =>
      RunningAt(sys, b) && sys.batches[b].unwritten.None? && sys.batches[b].pending == []
    case Abort(b) => RunningAt(sys, b)
    case Other(call) => Harmless(call)
  }

  function CompletionCall(t: Ticket, v: Verdict, at: int): Call {
    Call.Complete(t.cell, t.worker, t.token, v.next, v.reason, v.cost, v.EventArtifact(), at)
  }

  /** The atomic moves of the system; an impossible one changes nothing. */
  function Next(m: Manifest, sys: System, move: Move): (r: System)
    requires Fits(m, sys.trace.db)
    ensures Fits(m, r.trace.db)
  {
    if !Possible(sys, move) then sys
    else
      match move
      case Begin(request) =>
        var plan := PlanLease(m, sys.trace.db, request);
        var trace := After(m, sys.trace, Lease(request));
        if plan.Err? then sys.(batches := sys.batches + [Batch(Aborted, [], None)])
        else
          var base := |sys.trace.db.events| + |PlanReclaim(m, sys.trace.db, request.at).value|;
          assert base <= |trace.db.events|;
          sys.(trace := trace,
               batches := sys.batches + [Batch(Running, TicketsFrom(m, trace.db.events, base, request.seconds), None)])
      case Complete(b, outcome, at) =>
        var batch := sys.batches[b];
        var ticket := batch.pending[0];
        var verdict := VerdictFor(ticket.estimate, outcome);
        var call := CompletionCall(ticket, verdict, at);
        if Plan(m, sys.trace.db, call).Err? then sys.(batches := sys.batches[b := batch.(status := Aborted)])
        else
          sys.(trace := After(m, sys.trace, call),
               batches := sys.batches[b := batch.(unwritten := Some(RecordFor(m, ticket, verdict)))])
      case Write(b) =>
        var batch := sys.batches[b];
        sys.(records := sys.records + {batch.unwritten.value},
             batches := sys.batches[b := Batch(Running, batch.pending[1..], None)])
      case Return(b) => sys.(batches := sys.batches[b := sys.batches[b].(status := Returned)])
      case Abort(b) => sys.(batches := sys.batches[b := sys.batches[b].(status := Aborted)])
      case Other(call) => sys.(trace := After(m, sys.trace, call))
  }

  function Execute(m: Manifest, createdAt: int, moves: seq<Move>): (r: System)
    ensures Fits(m, r.trace.db)
  {
    if moves == [] then System(Start(m, createdAt), [], {})
    else Next(m, Execute(m, createdAt, moves[..|moves| - 1]), moves[|moves| - 1])
  }
}
