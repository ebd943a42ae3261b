/** What one lease call achieves, and why a passing budget gate never starves the campaign. */
module StoreScheduling {
  import opened Prelude
  import opened Campaign
  import opened Store
  import opened StoreInvariants
  import opened StoreSafety

  // ---------------------------------------------------------------- maximality

  /** Leasing one cell never makes another cell admissible that was refused before. */
  lemma RefusedAfterIssue(m: Manifest, db: Db, a: Action, c: CellId)
    requires Fits(m, db) && a.Issue? && a.cell < |db.rows| && db.rows[a.cell].state.Ready?
    requires Objection(DraftFor(m, db, a)).None?
    requires c < |m.cells| && Refused(m, db.rows, c)
    ensures Refused(m, Do(m, db, a).rows, c)
  {
    TotalsAfter(m, db.rows, a.cell, RowFor(db, a));
    ActiveAfter(m, db.rows, a.cell, RowFor(db, a), m.cells[c].model);
  }

  /** Everything in the list is either leased by the pass, or not wanted, or refused at its end. */
  lemma {:induction false} GreedyMaximal(m: Manifest, db: Db, request: LeaseRequest, order: seq<CellId>, taken: nat,
                                         drawn: nat)
    requires Fits(m, db) && Distinct(order)
    requires forall i | 0 <= i < |order| :: order[i] < |db.rows|
    requires PlanGreedy(m, db, request, order, taken, drawn).Ok?
    ensures var actions := PlanGreedy(m, db, request, order, taken, drawn).value;
      var rows := DoAll(m, db, actions).rows;
      && (taken <= request.limit ==> taken + |actions| <= request.limit)
      && (forall c | 0 <= c < |rows| && c !in order :: rows[c] == db.rows[c])
      && (forall c | 0 <= c < |rows| && Refused(m, db.rows, c) :: Refused(m, rows, c))
      && (taken + |actions| < request.limit ==>
            forall c | c in order && Wanted(m, rows, request, c) :: Refused(m, rows, c))
    decreases |order|
  {
    hide Wanted, Refused, Do, RowFor, DraftFor, FirstUsable, Draws, Objection;
    if order == [] || taken >= request.limit {
    } else {
      var tail := order[1..];
      assert order == [order[0]] + tail;
      match Choice(m, db, request, order[0], drawn)
      case Ok(None) =>
        GreedyMaximal(m, db, request, tail, taken, drawn);
        SkippedStaysOut(m, db, request, order, taken, drawn);
      case Ok(Some((a, drawn'))) =>
        var db' := Do(m, db, a);
        GreedyMaximal(m, db', request, tail, taken + 1, drawn');
        IssueFacts(m, db, request, order[0], drawn, a, drawn');
        var rest := PlanGreedy(m, db', request, tail, taken + 1, drawn').value;
        DoAllConcat(m, db, [a], rest);
        DoAllOne(m, db, a);
    }
  }

  lemma SkippedStaysOut(m: Manifest, db: Db, request: LeaseRequest, order: seq<CellId>, taken: nat, drawn: nat)
    requires Fits(m, db) && Distinct(order) && order != []
    requires forall i | 0 <= i < |order| :: order[i] < |db.rows|
    requires Choice(m, db, request, order[0], drawn) == Ok(None)
    ensures order[0] !in order[1..]
    ensures Wanted(m, db.rows, request, order[0]) ==> Refused(m, db.rows, order[0])
    ensures forall rows: seq<Row> | |rows| == |db.rows| && rows[order[0]] == db.rows[order[0]] ::
      Wanted(m, rows, request, order[0]) <==> Wanted(m, db.rows, request, order[0])
  {
    hide Refused;
  }

  lemma IssueFacts(m: Manifest, db: Db, request: LeaseRequest, c: CellId, drawn: nat, a: Action, drawn': nat)
    requires Fits(m, db) && c < |db.rows|
    requires Choice(m, db, request, c, drawn) == Ok(Some((a, drawn')))
    ensures a.cell == c && forall x | 0 <= x < |db.rows| && x != c :: Do(m, db, a).rows[x] == db.rows[x]
    ensures forall x | 0 <= x < |db.rows| && Refused(m, db.rows, x) :: Refused(m, Do(m, db, a).rows, x)
    ensures forall rows: seq<Row> | |rows| == |db.rows| && rows[c] == Do(m, db, a).rows[c] ::
      !Wanted(m, rows, request, c)
  {
    hide Refused;
    forall x | 0 <= x < |db.rows| && Refused(m, db.rows, x) ensures Refused(m, Do(m, db, a).rows, x) {
      RefusedAfterIssue(m, db, a, x);
    }
  }

  // ---------------------------------------------------------------- nothing expired is left

  /** The reclaim pass frees exactly the expired leases among the cells it looks at. */
  lemma {:induction false} ReclaimClears(m: Manifest, db: Db, order: seq<CellId>, at: int, c: CellId)
    requires Fits(m, db) && Distinct(order) && c < |db.rows|
    requires forall i | 0 <= i < |order| :: order[i] < |db.rows|
    ensures var row := DoAll(m, db, Expirations(db, order, at)).rows[c];
      if c in order && Expired(db.rows[c], at) then row.state.Ready? && NoLease(row) else row == db.rows[c]
  {
    hide Do, Expired, NoLease;
    if order != [] {
      var n := |order| - 1;
      var last := order[n];
      assert order == order[..n] + [last];
      ReclaimClears(m, db, order[..n], at, c);
      ReclaimClears(m, db, order[..n], at, last);
      var before := Expirations(db, order[..n], at);
      if Expired(db.rows[last], at) {
        DoAllConcat(m, db, before, [Expire(last, at)]);
        DoAllOne(m, DoAll(m, db, before), Expire(last, at));
        ExpireFrees(m, DoAll(m, db, before), last, at, c);
      } else {
        assert before + [] == before;
      }
    }
  }

  lemma ExpireFrees(m: Manifest, db: Db, last: CellId, at: int, c: CellId)
    requires last < |db.rows| && c < |db.rows|
    ensures var row := Do(m, db, Expire(last, at)).rows[c];
      if c == last then row.state.Ready? && NoLease(row) else row == db.rows[c]
  {
  }

  lemma {:induction false} IssuesUnexpired(m: Manifest, db: Db, actions: seq<Action>, at: int)
    requires InRange(db, actions)
    requires forall i | 0 <= i < |actions| :: actions[i].Issue? && actions[i].at == at && actions[i].seconds >= 1
    requires forall c | 0 <= c < |db.rows| :: !Expired(db.rows[c], at)
    ensures forall c | 0 <= c < |db.rows| :: !Expired(DoAll(m, db, actions).rows[c], at)
  {
    hide DraftFor, EventFor;
    if actions != [] {
      IssuesUnexpired(m, db, actions[..|actions| - 1], at);
    }
  }

  /**
   * A lease call that commits is a maximal greedy choice: no lease is expired when it returns, at
   * most `limit` cells are leased, and if fewer are, every ready cell that matches the filters is
   * at its model's cap, unpriced, or over the budget that then remains.
   */
  lemma LeaseIsMaximal(m: Manifest, db: Db, request: LeaseRequest)
    requires Fits(m, db) && PlanLease(m, db, request).Ok?
    ensures var rows := Step(m, db, Lease(request)).rows;
      var leased := |PlanLease(m, db, request).value| - |PlanReclaim(m, db, request.at).value|;
      && (forall c | 0 <= c < |rows| :: !Expired(rows[c], request.at))
      && 0 <= leased <= request.limit
      && (leased < request.limit ==>
            forall c | 0 <= c < |rows| && Wanted(m, rows, request, c) :: Refused(m, rows, c))
  {
    hide Wanted, Refused, Expired, PlanGreedy, Expirations, AnyObjection;
    var order := KeyOrder(m.cells);
    KeyOrderFacts(m.cells);
    var expirations := PlanReclaim(m, db, request.at).value;
    var middle := DoAll(m, db, expirations);
    var issues := PlanGreedy(m, middle, request, order, 0, 0).value;
    assert Step(m, db, Lease(request)).rows == DoAll(m, middle, issues).rows by {
      DoAllConcat(m, db, expirations, issues);
    }
    GreedyMaximal(m, middle, request, order, 0, 0);
    GreedyIssues(m, middle, request, order, 0, 0);
    AfterReclaim(m, db, order, request.at);
    assert forall i | 0 <= i < |issues| :: IssueFor(request, order, issues[i]);
    IssuesUnexpired(m, middle, issues, request.at);
  }

  lemma AfterReclaim(m: Manifest, db: Db, order: seq<CellId>, at: int)
    requires Fits(m, db) && order == KeyOrder(m.cells)
    ensures forall c | 0 <= c < |db.rows| :: !Expired(DoAll(m, db, Expirations(db, order, at)).rows[c], at)
  {
    KeyOrderFacts(m.cells);
    forall c | 0 <= c < |db.rows| ensures !Expired(DoAll(m, db, Expirations(db, order, at)).rows[c], at) {
      ReclaimClears(m, db, order, at, c);
    }
  }

  // ---------------------------------------------------------------- the budget gate

  /** Estimates of the cells that are finished. */
  function FinishedEstimates(m: Manifest, rows: seq<Row>): seq<real> {
    seq(|rows|, i requires 0 <= i < |rows| => if Terminal(rows[i].state) then EstimateOrZero(m, i) else 0.0)
  }

  /** Reserved, finished and one ready cell are disjoint parts of the known cost. */
  lemma EstimatesDisjoint(m: Manifest, rows: seq<Row>, c: CellId)
    requires |rows| == |m.cells| && c < |rows| && rows[c].state.Ready?
    requires forall i | 0 <= i < |m.cells| :: EstimateOrZero(m, i) >= 0.0
    ensures Reserved(m, rows) + Sum(FinishedEstimates(m, rows)) + EstimateOrZero(m, c) <= KnownCost(m.cells)
  {
    var both := seq(|rows|, i requires 0 <= i < |rows| => Reservations(m, rows)[i] + FinishedEstimates(m, rows)[i]);
    SumAdd(Reservations(m, rows), FinishedEstimates(m, rows), both);
    SumUpdate(both, c, EstimateOrZero(m, c));
    forall i | 0 <= i < |rows| ensures both[c := EstimateOrZero(m, c)][i] <= KnownCosts(m.cells)[i] {
      assert KnownCosts(m.cells)[i] == EstimateOrZero(m, i);
    }
    SumMonotone(both[c := EstimateOrZero(m, c)], KnownCosts(m.cells));
  }

  /**
   * A passing gate never starves the campaign: while the money spent is at most the estimates of
   * the finished cells plus the reserve, the budget test refuses no ready cell, in any state.
   */
  lemma PassingGateNeverStarves(m: Manifest, rows: seq<Row>, reserveFraction: real, requireHardBudget: bool, c: CellId)
    requires |rows| == |m.cells| && c < |rows| && rows[c].state.Ready?
    requires forall i | 0 <= i < |m.cells| :: EstimateOrZero(m, i) >= 0.0
    requires GateFor(m.cells, m.hardBudget, reserveFraction, requireHardBudget) == Pass
    requires Spent(rows) <= Sum(FinishedEstimates(m, rows)) + reserveFraction * KnownCost(m.cells)
    ensures !OverBudget(m, rows, c)
  {
    EstimatesDisjoint(m, rows, c);
    assert KnownCost(m.cells) * (1.0 + reserveFraction) == KnownCost(m.cells) + reserveFraction * KnownCost(m.cells);
  }

  /**
   * Under a passing gate and that spending condition, a lease call that stops short of its limit
   * leaves behind only cells that are at their model's cap or have no price.
   */
  lemma PassingGateLeasesAll(m: Manifest, db: Db, request: LeaseRequest, reserveFraction: real, requireHardBudget: bool)
    requires Fits(m, db) && PlanLease(m, db, request).Ok?
    requires forall i | 0 <= i < |m.cells| :: EstimateOrZero(m, i) >= 0.0
    requires GateFor(m.cells, m.hardBudget, reserveFraction, requireHardBudget) == Pass
    requires |PlanLease(m, db, request).value| - |PlanReclaim(m, db, request.at).value| < request.limit
    requires var rows := Step(m, db, Lease(request)).rows;
      Spent(rows) <= Sum(FinishedEstimates(m, rows)) + reserveFraction * KnownCost(m.cells)
    ensures var rows := Step(m, db, Lease(request)).rows;
      forall c | 0 <= c < |rows| && Wanted(m, rows, request, c) :: Capped(m, rows, c) || m.cells[c].estimate.None?
  {
    hide PlanLease, PlanReclaim, Step, GateFor, Spent, Capped, KnownCost, OverBudget;
    var rows := Step(m, db, Lease(request)).rows;
    LeaseIsMaximal(m, db, request);
    forall c | 0 <= c < |rows| && Wanted(m, rows, request, c)
      ensures Capped(m, rows, c) || m.cells[c].estimate.None?
    {
      PassingGateNeverStarves(m, rows, reserveFraction, requireHardBudget, c);
    }
  }
}
