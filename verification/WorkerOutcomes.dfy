/**
 * What a batch makes of each outcome: the state, reason, cost and artifact of the completion and of
 * the record, read off the fields of what the runner returned.
 */
module WorkerOutcomes {
  import opened Prelude
  import opened Campaign
  import opened Store
  import opened StoreRuns
  import opened Worker
  import opened WorkerSafety
  import opened WorkerReconcile
  import opened WorkerBatch
  import opened StoreInvariants
  import Money

  /** The runner returned a trial and a scorecard, and listed no failure. */
  predicate Scored(outcome: Outcome) {
    outcome.RunnerReturned? && !outcome.result.failed && outcome.result.trial.Some? && outcome.result.score.Some?
  }

  predicate AllGatesPassed(score: Score) {
    score.safeAndParseable && score.nonblankRender && score.judgeInputSafe
  }

  /** The names of the gates that failed, each of the seven cases spelled out. */
  function FailedNames(score: Score): string {
    match (score.safeAndParseable, score.nonblankRender, score.judgeInputSafe)
    case (true, true, true) => ""
    case (false, true, true) => "safe_and_parseable"
    case (true, false, true) => "nonblank_render"
    case (true, true, false) => "judge_input_safe"
    case (false, false, true) => "safe_and_parseable" + "," + "nonblank_render"
    case (false, true, false) => "safe_and_parseable" + "," + "judge_input_safe"
    case (true, false, false) => "nonblank_render" + "," + "judge_input_safe"
    case (false, false, false) => "safe_and_parseable" + "," + ("nonblank_render" + "," + "judge_input_safe")
  }

  function ReportedAmount(outcome: Outcome): Option<real> {
    if outcome.RunnerReturned? && outcome.result.trial.Some? then
      match outcome.result.trial.value.reported
      case Amount(x) => if x >= 0.0 then Some(x) else None
      case _ => None
    else None
  }

  function TrialArtifact(outcome: Outcome): Option<string> {
    if outcome.RunnerReturned? && outcome.result.trial.Some? then outcome.result.trial.value.artifact else None
  }

  /** State, reason, cost and artifacts of a completion, as its outcome determines them. */
  ghost predicate Settled(outcome: Outcome, estimate: real, next: CellState, reason: string, cost: real,
                          eventArtifact: Option<string>, recordArtifact: Option<string>)
  {
    && (next == Succeeded <==> Scored(outcome) && AllGatesPassed(outcome.result.score.value))
    && (next == Quarantined <==> Scored(outcome) && !AllGatesPassed(outcome.result.score.value))
    && (next == Failed <==> !Scored(outcome))
    && reason == (
         match outcome
         case TaskMissing => "task-missing-from-worker-corpus"
         case RunnerRaised => "worker-infrastructure-failure"
         case RunnerReturned(result) =>
           if result.failed then "generation-failed"
           else if !Scored(outcome) then "runner-produced-no-outcome"
           else if AllGatesPassed(result.score.value) then "canonical-artifact-retained"
           else "artifact-failed-retention-gates:" + FailedNames(result.score.value))
    && cost == (
         if outcome == TaskMissing then 0.0
         else if ReportedAmount(outcome).Some? then Money.Round8(ReportedAmount(outcome).value)
         else Money.Round8(estimate))
    && recordArtifact == TrialArtifact(outcome)
    && eventArtifact == (if Scored(outcome) then TrialArtifact(outcome) else None)
  }

  lemma GatesMean(score: Score)
    ensures FailedGates(score) == FailedNames(score)
    ensures FailedNames(score) == "" <==> AllGatesPassed(score)
  {
    var a := if score.safeAndParseable then [] else ["safe_and_parseable"];
    var b := if score.nonblankRender then [] else ["nonblank_render"];
    var c := if score.judgeInputSafe then [] else ["judge_input_safe"];
    hide Joined;
    JoinedMeans(a + b + c);
  }

  lemma JoinedMeans(names: seq<string>)
    requires |names| <= 3
    ensures Joined(names) ==
      if |names| == 0 then ""
      else if |names| == 1 then names[0]
      else if |names| == 2 then names[0] + "," + names[1]
      else names[0] + "," + (names[1] + "," + names[2])
  {
    if |names| == 2 {
      assert Joined(names[1..]) == names[1];
    } else if |names| == 3 {
      assert names[1..][1..] == [names[2]];
      assert Joined(names[1..][1..]) == names[2];
      assert Joined(names[1..]) == names[1] + "," + names[2];
    }
  }

  lemma VerdictMeans(estimate: real, outcome: Outcome)
    ensures var v := VerdictFor(estimate, outcome);
      Settled(outcome, estimate, v.next, v.reason, v.cost, v.EventArtifact(), v.recordArtifact)
  {
    hide FailedGates, FailedNames, Money.Round8;
    if outcome.RunnerReturned? && outcome.result.score.Some? {
      GatesMean(outcome.result.score.value);
    }
  }

  /**
   * The verdict on what the adapter did: retained exactly if it gave an image for the right task,
   * succeeded exactly if its gates passed as well, and then under the hash of the output.
   */
  lemma GenerationMeans(estimate: real, g: Generation)
    ensures var v := VerdictFor(estimate, RunnerReturned(RunBenchmark(g)));
      var image := g.Generated? && g.sameTask && g.isSvg;
      && (v.next == Succeeded <==> image && AllGatesPassed(g.score))
      && (v.next == Quarantined <==> image && !AllGatesPassed(g.score))
      && (v.next == Failed <==> !image)
      && v.recordArtifact == v.EventArtifact() == (if image then Some(g.outputHash) else None)
      && v.cost == Money.Round8(
           if image && g.reported.Amount? && g.reported.value >= 0.0 then g.reported.value else estimate)
  {
    hide FailedGates, FailedNames, VerdictFor, Money.Round8;
    VerdictMeans(estimate, RunnerReturned(RunBenchmark(g)));
  }

  /** A record carries the ticket's identity and the settled outcome. */
  ghost predicate RecordSettled(m: Manifest, t: Ticket, outcome: Outcome, r: Record) {
    && r.campaign == m.id && r.cell == t.cell && r.worker == t.worker && r.token == t.token && r.attempt == t.attempt
    && exists eventArtifact :: Settled(outcome, t.estimate, r.next, r.reason, r.cost, eventArtifact, r.artifact)
  }

  /** And so does the event. */
  ghost predicate EventSettled(m: Manifest, t: Ticket, outcome: Outcome, e: Payload) {
    && e.campaign == m.id && e.cell == t.cell && e.worker == Some(t.worker) && e.token == Some(t.token)
    && e.attempt == t.attempt && e.previous == Leased
    && exists recordArtifact :: Settled(outcome, t.estimate, e.next, e.reason, e.actual, e.artifact, recordArtifact)
  }

  /** Every record a batch writes says what became of its ticket. */
  lemma WrittenMeans(m: Manifest, tickets: seq<Ticket>, answers: Answers, n: nat, k: nat)
    requires k < n <= |tickets|
    ensures RecordSettled(m, tickets[k], answers(k).0, RecordsOf(m, tickets, answers, n)[k])
  {
    hide VerdictFor, Settled;
    VerdictMeans(tickets[k].estimate, answers(k).0);
  }

  /** In every system, an accepted completion appends an event, and leaves a record, that say so. */
  lemma CompletionSettles(m: Manifest, createdAt: int, moves: seq<Move>, move: Move)
    requires NothingLeased(m) && move.Complete? && Completes(m, Execute(m, createdAt, moves), move)
    ensures var sys := Execute(m, createdAt, moves);
      var next := Next(m, sys, move);
      var t := sys.batches[move.batch].pending[0];
      var n := |sys.trace.db.events|;
      && |next.trace.db.events| == n + 1 && next.trace.db.events[..n] == sys.trace.db.events
      && EventSettled(m, t, move.outcome, next.trace.db.events[n].columns)
      && next.batches[move.batch].unwritten.Some?
      && RecordSettled(m, t, move.outcome, next.batches[move.batch].unwritten.value)
  {
    hide Execute, VerdictFor, Settled, Inv, Plan, After, Accounts, Money.Round8, WorkerReason;
    var sys := Execute(m, createdAt, moves);
    ExecuteInv(m, createdAt, moves);
    InvFits(m, sys.trace);
    var t := sys.batches[move.batch].pending[0];
    var v := VerdictFor(t.estimate, move.outcome);
    VerdictIsWorkerTerminal(t.estimate, move.outcome);
    VerdictMeans(t.estimate, move.outcome);
    CompletionAccounted(m, sys, t, v, move.at);
    var e := After(m, sys.trace, CompletionCall(t, v, move.at)).db.events[|sys.trace.db.events|].columns;
    AccountsFields(RecordFor(m, t, v), e);
    EventArtifactMeans(v);
    EventFromLease(m, sys, t, v, move.at);
  }

  lemma AccountsFields(r: Record, e: Payload)
    requires Accounts(r, e)
    ensures e.token == Some(r.token) && e.cell == r.cell && e.attempt == r.attempt && e.campaign == r.campaign
    ensures e.worker == Some(r.worker) && e.next == r.next && e.reason == r.reason && e.actual == r.cost
    ensures e.artifact == if r.next == Succeeded || r.next == Quarantined then r.artifact else None
  {
  }

  lemma EventArtifactMeans(v: Verdict)
    ensures v.EventArtifact() == if v.next == Succeeded || v.next == Quarantined then v.recordArtifact else None
  {
  }

  lemma EventFromLease(m: Manifest, sys: System, t: Ticket, v: Verdict, at: int)
    requires Fits(m, sys.trace.db) && Plan(m, sys.trace.db, CompletionCall(t, v, at)).Ok?
    ensures var events := After(m, sys.trace, CompletionCall(t, v, at)).db.events;
      |events| == |sys.trace.db.events| + 1 && events[|sys.trace.db.events|].columns.previous == Leased
  {
    hide Money.Round8;
    var db := sys.trace.db;
    DoAllOne(m, db, Finish(t.cell, at, t.worker, t.token, v.next, v.reason, v.cost, v.EventArtifact()));
  }

  // ---------------------------------------------------------------- what the reconciler counts and compares

  const WORKER_REASONS := {
    "task-missing-from-worker-corpus", "worker-infrastructure-failure", "generation-failed",
    "runner-produced-no-outcome", "canonical-artifact-retained"}

  /** Only events of these states and reasons, with a worker, call for a record. */
  lemma WorkerTerminalMeans(e: Payload)
    ensures WorkerTerminal(e) <==>
      && e.next in {Succeeded, Failed, Quarantined} && e.worker != None
      && (e.reason in WORKER_REASONS
            || (|e.reason| >= 32 && e.reason[..32] == "artifact-failed-retention-gates:"))
  {
    assert |GATES| == 32;
    assert GATES <= e.reason <==> |e.reason| >= 32 && e.reason[..32] == GATES;
  }

  /** A pair agrees exactly in campaign, worker, state, reason and artifact, and in cost within 1e-8. */
  lemma FieldsAgreeMean(e: Payload, r: Record)
    ensures FieldsAgree(e, r) <==>
      && e.campaign == r.campaign && e.worker == Some(r.worker) && e.next == r.next && e.reason == r.reason
      && e.artifact == r.artifact
      && -0.00000001 <= r.cost - e.actual <= 0.00000001
  {
  }

  /** An event and a record are paired exactly by cell, token and attempt. */
  lemma KeysMean(e: Payload, r: Record)
    requires e.token.Some?
    ensures KeyOf(e) == RecordKey(r) <==> e.cell == r.cell && e.token == Some(r.token) && e.attempt == r.attempt
  {
  }
}
