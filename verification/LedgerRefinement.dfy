/** The store refines the in-memory ledger: erase the heartbeats from its log. */
module LedgerRefinement {
  import opened Prelude
  import opened Campaign
  import opened Store
  import opened StoreRuns
  import opened StoreLog
  import opened StoreInvariants
  import opened StoreSafety
  import L = Ledger
  import Money
  import Text

  predicate IsHeartbeat(e: Event) {
    e.columns.previous.Leased? && e.columns.next.Leased?
  }

  /** The ledger event with the content of a store event, chained after the given ones. */
  function Translate(ledger: seq<L.Event>, e: Event): L.Event {
    L.NextEvent(ledger, e.columns.cell, e.columns.previous, e.columns.next, e.columns.reason, e.columns.actual,
                e.columns.artifact)
  }

  /** The store's log without heartbeats, renumbered and rehashed as a ledger. */
  function Erase(events: seq<Event>): seq<L.Event> {
    if events == [] then []
    else
      var n := |events| - 1;
      var before := Erase(events[..n]);
      if IsHeartbeat(events[n]) then before else before + [Translate(before, events[n])]
  }

  function TotalLogged(events: seq<Event>): real {
    if events == [] then 0.0 else TotalLogged(events[..|events| - 1]) + events[|events| - 1].columns.actual
  }

  ghost predicate AmountsLogged(events: seq<Event>) {
    forall i | 0 <= i < |events| ::
      events[i].columns.actual >= 0.0 && (IsHeartbeat(events[i]) ==> events[i].columns.actual == 0.0)
  }

  /** Erasing heartbeats from an intact store log gives a ledger that replay accepts, with the same states and cost. */
  lemma {:induction false} ErasedIsLegal(m: Manifest, events: seq<Event>)
    requires ChainValid(m, events) && AmountsLogged(events)
    ensures L.Legal(m, Erase(events))
    ensures forall c | 0 <= c < |m.cells| :: L.StateAfter(m, Erase(events), c) == StateAfter(m, events, c)
    ensures L.TotalCost(Erase(events)) == TotalLogged(events)
  {
    if events != [] {
      var n := |events| - 1;
      var init, e := events[..n], events[n];
      assert events == init + [e];
      ChainSnoc(m, init, e);
      ErasedIsLegal(m, init);
      assert Linked(m, events, n);
      var before := Erase(init);
      if !IsHeartbeat(e) {
        var e' := Translate(before, e);
        L.LegalSnoc(m, before, e');
        assert L.Complaint(m, before + [e'], |before|).None?;
      }
    }
  }

  function LoggedCosts(m: Manifest, events: seq<Event>): seq<real> {
    seq(|m.cells|, c requires 0 <= c < |m.cells| => LoggedCost(events, c))
  }

  lemma {:induction false} TotalIsSumOfCells(m: Manifest, events: seq<Event>)
    requires ChainValid(m, events)
    ensures TotalLogged(events) == Sum(LoggedCosts(m, events))
  {
    if events == [] {
      AllZero(LoggedCosts(m, events));
    } else {
      var n := |events| - 1;
      var init, e := events[..n], events[n];
      assert events == init + [e];
      ChainSnoc(m, init, e);
      TotalIsSumOfCells(m, init);
      var c := e.columns.cell;
      assert Linked(m, events, n);
      assert LoggedCosts(m, events) == LoggedCosts(m, init)[c := LoggedCost(init, c) + e.columns.actual];
      SumUpdate(LoggedCosts(m, init), c, LoggedCost(init, c) + e.columns.actual);
    }
  }

  function RowStates(rows: seq<Row>): seq<CellState> {
    seq(|rows|, i requires 0 <= i < |rows| => rows[i].state)
  }

  /** The store's own notion of completion, read off the table. */
  ghost predicate StoreComplete(m: Manifest, rows: seq<Row>) {
    L.AllTerminal(RowStates(rows)) && !(m.hardBudget.Some? && Spent(rows) > m.hardBudget.value)
  }

  /**
   * For every run: the erased log is legal under the ledger and replays to the table's states. If
   * no charge was rounded the costs agree exactly, and with them the completion flags.
   */
  lemma RunRefinesLedger(m: Manifest, createdAt: int, calls: seq<Call>)
    requires NothingLeased(m)
    ensures var t := Run(m, createdAt, calls);
      && L.Legal(m, Erase(t.db.events))
      && L.States(m, Erase(t.db.events)) == RowStates(t.db.rows)
      && L.TotalCost(Erase(t.db.events)) == TotalLogged(t.db.events)
      && (ChargesRounded(calls) ==>
            && L.TotalCost(Erase(t.db.events)) == Spent(t.db.rows)
            && (L.Complete(m, Erase(t.db.events), None) <==> StoreComplete(m, t.db.rows)))
  {
    RunInv(m, createdAt, calls);
    CleanRun(m, createdAt, calls);
    var t := Run(m, createdAt, calls);
    TraceRefines(m, t);
  }

  lemma TraceRefines(m: Manifest, t: Trace)
    requires LogAgrees(m, t)
    ensures AmountsLogged(t.db.events)
    ensures L.Legal(m, Erase(t.db.events))
    ensures L.States(m, Erase(t.db.events)) == RowStates(t.db.rows)
    ensures L.TotalCost(Erase(t.db.events)) == TotalLogged(t.db.events)
    ensures MarksRounded(t) ==> L.TotalCost(Erase(t.db.events)) == Spent(t.db.rows)
  {
    AmountsFromMarks(m, t);
    ErasedIsLegal(m, t.db.events);
    TotalIsSumOfCells(m, t.db.events);
    if MarksRounded(t) {
      forall c | 0 <= c < |m.cells| ensures LoggedCost(t.db.events, c) == t.db.rows[c].actual {
        RoundedCostsAgree(t, c);
      }
      assert LoggedCosts(m, t.db.events) == Actuals(t.db.rows);
    }
  }

  lemma AmountsFromMarks(m: Manifest, t: Trace)
    requires LogAgrees(m, t)
    ensures AmountsLogged(t.db.events)
  {
    Money.Round8Units(0);
    forall i | 0 <= i < |t.db.events|
      ensures t.db.events[i].columns.actual >= 0.0
      ensures IsHeartbeat(t.db.events[i]) ==> t.db.events[i].columns.actual == 0.0
    {
      assert AmountLogged(t.db.events[i].columns, t.marks[i]);
      Money.Round8Close(t.marks[i].charge);
    }
  }

  lemma RoundedCostsAgree(t: Trace, c: CellId)
    requires |t.marks| == |t.db.events| && MarksRounded(t)
    requires forall i | 0 <= i < |t.marks| :: AmountLogged(t.db.events[i].columns, t.marks[i])
    ensures LoggedCost(t.db.events, c) == ChargedCost(t.db.events, t.marks, c)
  {
    forall i | 0 <= i < |t.marks| ensures t.db.events[i].columns.actual == Money.Round8(t.marks[i].charge) {
      assert AmountLogged(t.db.events[i].columns, t.marks[i]);
    }
    NoDriftWhenRounded(t.db.events, t.marks, c);
    DriftBound(t.db.events, t.marks, c);
  }

  // ---------------------------------------------------------------- scheduling

  function LedgerRequest(request: LeaseRequest): L.Request {
    L.Request(request.worker, request.limit, request.stage, request.model)
  }

  function CellsOf(actions: seq<Action>): seq<CellId> {
    seq(|actions|, i requires 0 <= i < |actions| => actions[i].cell)
  }

  lemma SameChoice(m: Manifest, rows: seq<Row>, request: LeaseRequest, c: CellId)
    requires |rows| == |m.cells| && c < |rows|
    ensures Wanted(m, rows, request, c) <==> L.Candidate(m, RowStates(rows), LedgerRequest(request), c)
    ensures Refused(m, rows, c) <==> L.PassedOver(m, RowStates(rows), Spent(rows), c)
  {
    assert ActiveFlags(m, rows, m.cells[c].model) == L.ActiveFlagsOf(m, RowStates(rows), m.cells[c].model);
    assert Reservations(m, rows) == L.ReservationsOf(m, RowStates(rows));
  }

  /** The store's greedy pass picks exactly the cells the ledger's pass picks from the same states and spend. */
  lemma {:induction false} GreedyPicksSame(m: Manifest, db: Db, request: LeaseRequest, order: seq<CellId>, taken: nat,
                                           drawn: nat)
    requires Fits(m, db)
    requires forall i | 0 <= i < |order| :: order[i] < |db.rows|
    requires PlanGreedy(m, db, request, order, taken, drawn).Ok?
    ensures CellsOf(PlanGreedy(m, db, request, order, taken, drawn).value)
         == L.Pick(m, RowStates(db.rows), Spent(db.rows), LedgerRequest(request), order, taken)
    decreases |order|
  {
    hide Wanted, Refused, Do, FirstUsable, Draws, Spent, RowStates, L.Candidate, L.PassedOver;
    if order != [] && taken < request.limit {
      var c := order[0];
      SameChoice(m, db.rows, request, c);
      match Choice(m, db, request, c, drawn)
      case Ok(None) => GreedyPicksSame(m, db, request, order[1..], taken, drawn);
      case Ok(Some((a, drawn'))) =>
        GreedyPicksSame(m, Do(m, db, a), request, order[1..], taken + 1, drawn');
        IssueStates(m, db, a);
        var rest := PlanGreedy(m, Do(m, db, a), request, order[1..], taken + 1, drawn').value;
        assert CellsOf([a] + rest) == [c] + CellsOf(rest);
    }
  }

  lemma IssueStates(m: Manifest, db: Db, a: Action)
    requires Fits(m, db) && a.Issue? && a.cell < |db.rows|
    ensures RowStates(Do(m, db, a).rows) == RowStates(db.rows)[a.cell := Leased]
    ensures Spent(Do(m, db, a).rows) == Spent(db.rows)
  {
    TotalsAfter(m, db.rows, a.cell, RowFor(db, a));
  }

  /** Issuing a lease appends, after erasure, exactly the event the ledger appends. */
  lemma {:induction false} IssuesAppend(m: Manifest, db: Db, issues: seq<Action>, worker: string)
    requires InRange(db, issues) && Fits(m, db)
    requires forall i | 0 <= i < |issues| :: issues[i].Issue? && issues[i].worker == worker
    requires forall i | 0 <= i < |issues| :: db.rows[issues[i].cell].state.Ready?
    requires DistinctCells(issues)
    requires L.Legal(m, Erase(db.events)) && L.States(m, Erase(db.events)) == RowStates(db.rows)
    ensures var db' := DoAll(m, db, issues);
      && L.AppendLeases(m, Erase(db.events), worker, CellsOf(issues)) == Ok(Erase(db'.events))
      && L.Legal(m, Erase(db'.events)) && L.States(m, Erase(db'.events)) == RowStates(db'.rows)
  {
    hide Do, Erase, RowStates, L.Append, L.Legal, L.States;
    if issues == [] {
      assert CellsOf(issues) == [];
    } else {
      var n := |issues| - 1;
      var a := issues[n];
      IssuesAppend(m, db, issues[..n], worker);
      var before := DoAll(m, db, issues[..n]);
      assert CellsOf(issues)[..n] == CellsOf(issues[..n]);
      DoAllElsewhere(m, db, issues[..n], a.cell);
      AppendOne(m, before, a);
    }
  }

  lemma AppendOne(m: Manifest, db: Db, a: Action)
    requires Fits(m, db) && a.Issue? && a.cell < |db.rows| && db.rows[a.cell].state.Ready?
    requires L.Legal(m, Erase(db.events)) && L.States(m, Erase(db.events)) == RowStates(db.rows)
    ensures var db' := Do(m, db, a);
      && L.Append(m, Erase(db.events), a.cell, Leased, "worker-lease:" + a.worker, 0.0, None) == Ok(Erase(db'.events))
      && L.Legal(m, Erase(db'.events)) && L.States(m, Erase(db'.events)) == RowStates(db'.rows)
  {
    var e := EventFor(m, db.events, DraftFor(m, db, a));
    var before := Erase(db.events);
    assert (db.events + [e])[..|db.events|] == db.events;
    Text.NotBlank("worker-lease:" + a.worker);
    Money.Round8Units(0);
    assert L.States(m, before)[a.cell] == Ready;
    var e' := Translate(before, e);
    assert Erase(db.events + [e]) == before + [e'];
    L.LegalSnoc(m, before, e');
    IssueStates(m, db, a);
    forall c | 0 <= c < |m.cells|
      ensures L.StateAfter(m, before + [e'], c) == if c == a.cell then Leased else L.StateAfter(m, before, c) {}
    assert L.States(m, before + [e']) == L.States(m, before)[a.cell := Leased];
  }

  lemma {:induction false} GreedyReadyDistinct(m: Manifest, db: Db, request: LeaseRequest, order: seq<CellId>,
                                               taken: nat, drawn: nat)
    requires Fits(m, db) && Distinct(order)
    requires forall i | 0 <= i < |order| :: order[i] < |db.rows|
    requires PlanGreedy(m, db, request, order, taken, drawn).Ok?
    ensures var issues := PlanGreedy(m, db, request, order, taken, drawn).value;
      DistinctCells(issues) && forall i | 0 <= i < |issues| :: db.rows[issues[i].cell].state.Ready?
    decreases |order|
  {
    hide Refused, FirstUsable, Draws, DraftFor, EventFor;
    if order != [] && taken < request.limit {
      var tail := order[1..];
      assert order == [order[0]] + tail;
      match Choice(m, db, request, order[0], drawn)
      case Ok(None) => GreedyReadyDistinct(m, db, request, tail, taken, drawn);
      case Ok(Some((a, drawn'))) =>
        var db' := Do(m, db, a);
        GreedyReadyDistinct(m, db', request, tail, taken + 1, drawn');
        GreedyIssues(m, db', request, tail, taken + 1, drawn');
        var rest := PlanGreedy(m, db', request, tail, taken + 1, drawn').value;
        forall i | 0 <= i < |rest| ensures rest[i].cell != a.cell && db.rows[rest[i].cell].state.Ready? {
          assert IssueFor(request, tail, rest[i]);
        }
    }
  }

  /**
   * From any state on which log and table agree, and as long as the stored and the replayed spend
   * are equal, a store lease call (after its reclaim) picks exactly the cells lease_ready_cells
   * picks from the erased ledger, and the two longer logs again correspond. (On a manifest without
   * cells the ledger raises, because it asks next_ready_cells for zero cells.)
   */
  lemma LeaseFromAgreement(m: Manifest, db: Db, request: LeaseRequest)
    requires Fits(m, db) && PlanLease(m, db, request).Ok?
    requires var middle := DoAll(m, db, PlanReclaim(m, db, request.at).value);
      && L.Legal(m, Erase(middle.events))
      && L.States(m, Erase(middle.events)) == RowStates(middle.rows)
      && L.TotalCost(Erase(middle.events)) == Spent(middle.rows)
    ensures var middle := DoAll(m, db, PlanReclaim(m, db, request.at).value);
      var issues := PlanGreedy(m, middle, request, KeyOrder(m.cells), 0, 0).value;
      L.LeaseReady(m, Erase(middle.events), LedgerRequest(request))
        == if m.cells == [] then Err(L.BadArgument)
           else Ok((Erase(Step(m, db, Lease(request)).events), CellsOf(issues)))
  {
    hide Erase, RowStates, Spent, PlanGreedy, PlanReclaim, DoAll, L.States, L.TotalCost, L.Pick, L.AppendLeases;
    var expirations := PlanReclaim(m, db, request.at).value;
    var middle := DoAll(m, db, expirations);
    var order := KeyOrder(m.cells);
    var issues := PlanGreedy(m, middle, request, order, 0, 0).value;
    DoAllConcat(m, db, expirations, issues);
    KeyOrderFacts(m.cells);
    GreedyPicksSame(m, middle, request, order, 0, 0);
    GreedyReadyDistinct(m, middle, request, order, 0, 0);
    GreedyIssues(m, middle, request, order, 0, 0);
    assert forall i | 0 <= i < |issues| :: IssueFor(request, order, issues[i]);
    IssuesAppend(m, middle, issues, request.worker);
  }

  /** The same after every run whose charges are whole units. */
  lemma LeaseRefinesLedger(m: Manifest, createdAt: int, calls: seq<Call>, request: LeaseRequest)
    requires NothingLeased(m) && ChargesRounded(calls)
    requires PlanLease(m, Run(m, createdAt, calls).db, request).Ok?
    ensures var db := Run(m, createdAt, calls).db;
      var middle := DoAll(m, db, PlanReclaim(m, db, request.at).value);
      var issues := PlanGreedy(m, middle, request, KeyOrder(m.cells), 0, 0).value;
      L.LeaseReady(m, Erase(middle.events), LedgerRequest(request))
        == if m.cells == [] then Err(L.BadArgument)
           else Ok((Erase(Step(m, db, Lease(request)).events), CellsOf(issues)))
  {
    hide Run, PlanReclaim, PlanGreedy, Inv, MarksRounded, Erase, L.LeaseReady;
    RunInv(m, createdAt, calls);
    CleanRun(m, createdAt, calls);
    var t := Run(m, createdAt, calls);
    ReclaimAgrees(m, t, request.at);
    LeaseFromAgreement(m, t.db, request);
  }

  lemma ReclaimAgrees(m: Manifest, t: Trace, at: int)
    requires Inv(m, t) && MarksRounded(t) && PlanReclaim(m, t.db, at).Ok?
    ensures var middle := DoAll(m, t.db, PlanReclaim(m, t.db, at).value);
      && L.Legal(m, Erase(middle.events))
      && L.States(m, Erase(middle.events)) == RowStates(middle.rows)
      && L.TotalCost(Erase(middle.events)) == Spent(middle.rows)
  {
    hide Inv, MarksRounded, Erase, L.Legal, L.States, L.TotalCost, Spent, RowStates, AnyObjection;
    InvGivesLog(m, t);
    ReclaimEnabled(m, t.db, at);
    var actions := PlanReclaim(m, t.db, at).value;
    ExtendAllInv(m, t, actions);
    ExtendAllMarks(m, t, actions);
    InvGivesLog(m, ExtendAll(m, t, actions));
    TraceRefines(m, ExtendAll(m, t, actions));
  }

  lemma InvGivesLog(m: Manifest, t: Trace)
    requires Inv(m, t)
    ensures LogAgrees(m, t)
  {
  }
}
