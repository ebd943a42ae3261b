/** Runs that spend within their estimates: a passing gate never starves them, at any point. */
module StoreThrift {
  import opened Prelude
  import opened Campaign
  import opened Store
  import opened StoreRuns
  import opened StoreInvariants
  import opened StoreSafety
  import opened StoreScheduling

  /**
   * What a caller can test before a call: a completion brings the cell's cost to at most its
   * estimate if it finishes the cell and to nothing if it does not, and only cells that cost
   * nothing are requeued.
   */
  predicate Thrifty(m: Manifest, db: Db, call: Call)
    requires Fits(m, db)
  {
    Plan(m, db, call).Ok? ==>
      match call
      case Complete(c, _, _, next, _, actual, _, _) =>
        c < |db.rows| && db.rows[c].actual + actual <= (if Terminal(next) then EstimateOrZero(m, c) else 0.0)
      case RequeueFailed(c, _, _, _) => c < |db.rows| && db.rows[c].actual <= 0.0
      case _ => true
  }

  ghost predicate ThriftyRun(m: Manifest, createdAt: int, calls: seq<Call>) {
    forall i | 0 <= i < |calls| :: Thrifty(m, Run(m, createdAt, calls[..i]).db, calls[i])
  }

  /** No cell has cost more than its estimate, and no unfinished cell anything. */
  ghost predicate Covered(m: Manifest, db: Db) {
    Fits(m, db) && forall c | 0 <= c < |db.rows| :: CoveredRow(m, db.rows[c], c)
  }

  predicate CoveredRow(m: Manifest, row: Row, c: CellId) {
    row.actual <= (if Terminal(row.state) then EstimateOrZero(m, c) else 0.0)
  }

  /** The same test for a single change. */
  predicate ThriftyAction(m: Manifest, db: Db, a: Action)
    requires a.cell < |db.rows|
  {
    match a
    case Finish(c, _, _, _, next, _, actual, _) =>
      db.rows[c].actual + actual <= (if Terminal(next) then EstimateOrZero(m, c) else 0.0)
    case Requeue(c, _, _, _) => db.rows[c].actual <= 0.0
    case _ => true
  }

  lemma StepCovered(m: Manifest, db: Db, a: Action)
    requires Covered(m, db) && Enabled(m, db, a) && ThriftyAction(m, db, a)
    ensures Covered(m, Do(m, db, a))
  {
    hide Refused, TokenSeen, EventFor;
    assert CoveredRow(m, db.rows[a.cell], a.cell);
  }

  lemma {:induction false} ActionsCovered(m: Manifest, db: Db, actions: seq<Action>)
    requires Covered(m, db) && EnabledAll(m, db, actions)
    requires forall i | 0 <= i < |actions| :: !actions[i].Finish? && !actions[i].Requeue?
    ensures Covered(m, DoAll(m, db, actions))
  {
    hide Covered, Enabled, Do;
    if actions != [] {
      var n := |actions| - 1;
      EnabledPrefix(m, db, actions, n);
      ActionsCovered(m, db, actions[..n]);
      StepCovered(m, DoAll(m, db, actions[..n]), actions[n]);
    }
  }

  lemma CallCovered(m: Manifest, db: Db, call: Call)
    requires Covered(m, db) && Thrifty(m, db, call)
    ensures Covered(m, Step(m, db, call))
  {
    hide Enabled, Do, PlanLease, PlanReclaim, Covered, Objection, DraftFor;
    assert Fits(m, db) by { CoveredFits(m, db); }
    if Plan(m, db, call).Ok? {
      var actions := Plan(m, db, call).value;
      PlanEnabled(m, db, call);
      PlanRequeues(m, db, call);
      if call.Complete? || call.RequeueFailed? {
        assert |actions| == 1 && actions[..0] == [] && Enabled(m, DoAll(m, db, actions[..0]), actions[0]);
        assert ThriftyAction(m, db, actions[0]);
        StepOne(m, db, call, actions[0]);
        StepCovered(m, db, actions[0]);
      } else {
        ActionsCovered(m, db, actions);
      }
    }
  }

  lemma CoveredFits(m: Manifest, db: Db)
    requires Covered(m, db)
    ensures Fits(m, db)
  {
  }

  lemma StartCovered(m: Manifest, createdAt: int)
    requires forall c | 0 <= c < |m.cells| :: EstimateOrZero(m, c) >= 0.0
    ensures Covered(m, InitialDb(m, createdAt))
  {
  }

  lemma {:induction false} RunCovered(m: Manifest, createdAt: int, calls: seq<Call>)
    requires forall c | 0 <= c < |m.cells| :: EstimateOrZero(m, c) >= 0.0
    requires ThriftyRun(m, createdAt, calls)
    ensures Covered(m, Run(m, createdAt, calls).db)
  {
    hide Covered, Thrifty, Step, EstimateOrZero;
    if calls == [] {
      StartCovered(m, createdAt);
    } else {
      var n := |calls| - 1;
      forall i | 0 <= i < n ensures Thrifty(m, Run(m, createdAt, calls[..n][..i]).db, calls[..n][i]) {
        assert calls[..n][..i] == calls[..i];
        assert Thrifty(m, Run(m, createdAt, calls[..i]).db, calls[i]);
      }
      RunCovered(m, createdAt, calls[..n]);
      CallCovered(m, Run(m, createdAt, calls[..n]).db, calls[n]);
    }
  }

  /** Under a passing gate no ready cell is ever refused for its budget in such a run. */
  lemma ThriftyRunNeverStarves(m: Manifest, createdAt: int, calls: seq<Call>, reserveFraction: real,
                               requireHardBudget: bool, c: CellId)
    requires forall x | 0 <= x < |m.cells| :: EstimateOrZero(m, x) >= 0.0
    requires GateFor(m.cells, m.hardBudget, reserveFraction, requireHardBudget) == Pass && reserveFraction >= 0.0
    requires ThriftyRun(m, createdAt, calls)
    requires c < |m.cells| && Run(m, createdAt, calls).db.rows[c].state.Ready?
    ensures !OverBudget(m, Run(m, createdAt, calls).db.rows, c)
  {
    hide Run, ThriftyRun, GateFor, OverBudget;
    RunCovered(m, createdAt, calls);
    var rows := Run(m, createdAt, calls).db.rows;
    forall i | 0 <= i < |rows| ensures Actuals(rows)[i] <= FinishedEstimates(m, rows)[i] {
      assert CoveredRow(m, rows[i], i);
    }
    SumMonotone(Actuals(rows), FinishedEstimates(m, rows));
    SumNonNegative(KnownCosts(m.cells), m);
    Scaled(reserveFraction, KnownCost(m.cells));
    PassingGateNeverStarves(m, rows, reserveFraction, requireHardBudget, c);
  }

  lemma SumNonNegative(costs: seq<real>, m: Manifest)
    requires costs == KnownCosts(m.cells) && forall x | 0 <= x < |m.cells| :: EstimateOrZero(m, x) >= 0.0
    ensures Sum(costs) >= 0.0
  {
    var zeros := seq(|costs|, _ => 0.0);
    AllZero(zeros);
    forall i | 0 <= i < |costs| ensures zeros[i] <= costs[i] {
      assert costs[i] == EstimateOrZero(m, i);
    }
    SumMonotone(zeros, costs);
  }

  lemma Scaled(x: real, y: real)
    requires x >= 0.0 && y >= 0.0
    ensures x * y >= 0.0
  {
  }
}
