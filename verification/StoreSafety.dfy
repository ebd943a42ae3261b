/** What holds of every run of the store, and of every lease call. */
module StoreSafety {
  import opened Prelude
  import opened Campaign
  import opened Store
  import opened StoreRuns
  import opened StoreLog
  import opened StoreInvariants
  import opened StoreReconcile
  import Money

  // ---------------------------------------------------------------- reconciliation of runs

  /** What rounding did to the charges of one cell. */
  function Drift(t: Trace, c: CellId): real
    requires |t.marks| == |t.db.events|
  {
    AbsReal(ChargedCost(t.db.events, t.marks, c) - LoggedCost(t.db.events, c))
  }

  ghost predicate NothingDangles(m: Manifest, t: Trace) {
    forall c | 0 <= c < |m.cells| :: !Dangling(t.db.events, c)
  }

  ghost predicate DriftTolerated(m: Manifest, t: Trace)
    requires |t.marks| == |t.db.events|
  {
    forall c | 0 <= c < |m.cells| :: Drift(t, c) <= Money.UNIT
  }

  /**
   * After any run the chain is intact and replays to the table's states. The reconciler accepts
   * exactly when no cell was requeued out of a live lease without being leased again, and no
   * cell's rounding drift exceeds the tolerance.
   */
  lemma ReconcileAfterRun(m: Manifest, createdAt: int, calls: seq<Call>)
    requires NothingLeased(m)
    ensures var t := Run(m, createdAt, calls);
      && |t.marks| == |t.db.events|
      && ChainValid(m, t.db.events)
      && StatesReplayed(m, t.db)
      && (LeasesSound(m, t.db) <==> NothingDangles(m, t))
      && (CostsReplayed(m, t.db) <==> DriftTolerated(m, t))
      && (Reconciled(m, t.db) <==> NothingDangles(m, t) && DriftTolerated(m, t))
  {
    RunInv(m, createdAt, calls);
    ReconciledFrom(m, Run(m, createdAt, calls));
  }

  lemma ReconciledFrom(m: Manifest, t: Trace)
    requires LogAgrees(m, t) && LeaseFields(m, t)
    ensures StatesReplayed(m, t.db)
    ensures LeasesSound(m, t.db) <==> NothingDangles(m, t)
    ensures CostsReplayed(m, t.db) <==> DriftTolerated(m, t)
  {
    WholeLogAccepted(m, t.db);
    if NothingDangles(m, t) {
      forall c | 0 <= c < |m.cells| ensures LeaseFieldsSound(t.db.rows[c]) {
        assert !Dangling(t.db.events, c);
      }
    }
    if LeasesSound(m, t.db) {
      forall c | 0 <= c < |m.cells| ensures !Dangling(t.db.events, c) {
        DanglingIsReady(m, t.db.events, c);
        assert LeaseFieldsSound(t.db.rows[c]);
      }
    }
    forall c | 0 <= c < |m.cells|
      ensures Drift(t, c) == AbsReal(t.db.rows[c].actual - LoggedCost(t.db.events, c)) {}
  }

  /** How many charges of a cell were not whole multiples of a unit. */
  function Unrounded(t: Trace, c: CellId): nat
    requires |t.marks| == |t.db.events|
  {
    UnroundedIn(t.db.events, t.marks, c)
  }

  function UnroundedIn(events: seq<Event>, marks: seq<Mark>, c: CellId): nat
    requires |events| == |marks|
  {
    if events == [] then 0
    else
      var n := |events| - 1;
      UnroundedIn(events[..n], marks[..n], c)
        + (if events[n].columns.cell == c && Money.Round8(marks[n].charge) != marks[n].charge then 1 else 0)
  }

  lemma {:induction false} DriftBound(events: seq<Event>, marks: seq<Mark>, c: CellId)
    requires |events| == |marks|
    requires forall i | 0 <= i < |marks| :: events[i].columns.actual == Money.Round8(marks[i].charge)
    ensures AbsReal(ChargedCost(events, marks, c) - LoggedCost(events, c))
         <= 0.5 * Money.UNIT * UnroundedIn(events, marks, c) as real
  {
    if events != [] {
      var n := |events| - 1;
      DriftBound(events[..n], marks[..n], c);
      Money.Round8Close(marks[n].charge);
    }
  }

  /** Half a unit of drift per unrounded charge: two such charges per cell can never trip the reconciler. */
  lemma RoundingDriftBounded(m: Manifest, createdAt: int, calls: seq<Call>)
    requires NothingLeased(m)
    ensures var t := Run(m, createdAt, calls);
      && |t.marks| == |t.db.events|
      && (forall c | 0 <= c < |m.cells| :: Drift(t, c) <= 0.5 * Money.UNIT * Unrounded(t, c) as real)
      && ((forall c | 0 <= c < |m.cells| :: Unrounded(t, c) <= 2) ==> DriftTolerated(m, t) && CostsReplayed(m, t.db))
  {
    RunInv(m, createdAt, calls);
    DriftFrom(m, Run(m, createdAt, calls));
  }

  lemma DriftFrom(m: Manifest, t: Trace)
    requires LogAgrees(m, t) && LeaseFields(m, t)
    ensures forall c | 0 <= c < |m.cells| :: Drift(t, c) <= 0.5 * Money.UNIT * Unrounded(t, c) as real
    ensures (forall c | 0 <= c < |m.cells| :: Unrounded(t, c) <= 2) ==> DriftTolerated(m, t) && CostsReplayed(m, t.db)
  {
    ReconciledFrom(m, t);
    forall c | 0 <= c < |m.cells| ensures Drift(t, c) <= 0.5 * Money.UNIT * Unrounded(t, c) as real {
      forall i | 0 <= i < |t.marks| ensures t.db.events[i].columns.actual == Money.Round8(t.marks[i].charge) {
        assert AmountLogged(t.db.events[i].columns, t.marks[i]);
      }
      DriftBound(t.db.events, t.marks, c);
    }
  }

  /** No call of the run requeues a cell while it is leased. */
  ghost predicate NeverRequeuesLeased(m: Manifest, createdAt: int, calls: seq<Call>) {
    forall i | 0 <= i < |calls| && calls[i].RequeueFailed? ::
      var rows := Run(m, createdAt, calls[..i]).db.rows;
      calls[i].cell < |rows| ==> !rows[calls[i].cell].state.Leased?
  }

  /** Every charge of the run is a whole number of units. */
  ghost predicate ChargesRounded(calls: seq<Call>) {
    forall i | 0 <= i < |calls| && calls[i].Complete? :: Money.Round8(calls[i].actual) == calls[i].actual
  }

  ghost predicate MarksRounded(t: Trace) {
    forall i | 0 <= i < |t.marks| :: Money.Round8(t.marks[i].charge) == t.marks[i].charge
  }

  lemma StepNothingDangles(m: Manifest, t: Trace, a: Action)
    requires LogAgrees(m, t) && LeaseFields(m, t) && Enabled(m, t.db, a)
    requires NothingDangles(m, t) && (a.Requeue? ==> !t.db.rows[a.cell].state.Leased?)
    ensures NothingDangles(m, Extend(m, t, a))
  {
    var e := EventFor(m, t.db.events, DraftFor(m, t.db, a));
    forall c | 0 <= c < |m.cells| ensures !Dangling(Extend(m, t, a).db.events, c) {
      LogSnoc(m, t.db.events, t.marks, e, MarkOf(a), c);
    }
  }

  lemma {:induction false} ExtendAllNothingDangles(m: Manifest, t: Trace, actions: seq<Action>)
    requires Inv(m, t) && EnabledAll(m, t.db, actions) && NothingDangles(m, t)
    requires forall i | 0 <= i < |actions| && actions[i].Requeue? :: i == 0 && !t.db.rows[actions[i].cell].state.Leased?
    ensures NothingDangles(m, ExtendAll(m, t, actions))
  {
    hide Enabled, DoAll, Do, Extend, NothingDangles;
    if actions != [] {
      var n := |actions| - 1;
      EnabledPrefix(m, t.db, actions, n);
      ExtendAllInv(m, t, actions[..n]);
      ExtendAllNothingDangles(m, t, actions[..n]);
      assert n == 0 ==> ExtendAll(m, t, actions[..n]) == t;
      StepNothingDangles(m, ExtendAll(m, t, actions[..n]), actions[n]);
    }
  }

  lemma EnabledPrefix(m: Manifest, db: Db, actions: seq<Action>, n: nat)
    requires EnabledAll(m, db, actions) && n <= |actions|
    ensures EnabledAll(m, db, actions[..n])
    ensures n < |actions| ==> Enabled(m, DoAll(m, db, actions[..n]), actions[n])
  {
    hide Enabled, DoAll;
    forall i | 0 <= i < n ensures Enabled(m, DoAll(m, db, actions[..n][..i]), actions[..n][i]) {
      assert actions[..n][..i] == actions[..i];
    }
  }

  ghost predicate OnlyFrom(actions: seq<Action>, call: Call) {
    forall i | 0 <= i < |actions| ::
      && (actions[i].Requeue? ==> i == 0 && call.RequeueFailed? && actions[i].cell == call.cell)
      && (actions[i].Finish? ==> call.Complete? && actions[i].actual == call.actual)
  }

  /** Only a requeue call requeues, and only a completion charges. */
  lemma PlanRequeues(m: Manifest, db: Db, call: Call)
    requires Fits(m, db) && Plan(m, db, call).Ok?
    ensures OnlyFrom(Plan(m, db, call).value, call)
  {
    hide DoAll, PlanGreedy, Objection, DraftFor;
    if call.Lease? {
      var expirations := PlanReclaim(m, db, call.request.at).value;
      GreedyIssues(m, DoAll(m, db, expirations), call.request, KeyOrder(m.cells), 0, 0);
    }
  }

  ghost predicate IssueFor(request: LeaseRequest, order: seq<CellId>, a: Action) {
    && a.Issue? && a.cell in order
    && a.at == request.at && a.seconds == request.seconds && a.worker == request.worker
  }

  ghost predicate AllIssues(request: LeaseRequest, order: seq<CellId>, actions: seq<Action>) {
    forall i | 0 <= i < |actions| :: IssueFor(request, order, actions[i])
  }

  lemma AllIssuesCons(request: LeaseRequest, order: seq<CellId>, actions: seq<Action>, a: Action)
    requires order != [] && AllIssues(request, order[1..], actions)
    ensures AllIssues(request, order, actions)
    ensures IssueFor(request, order, a) ==> AllIssues(request, order, [a] + actions)
  {
    assert order == [order[0]] + order[1..];
    forall i | 0 <= i < |actions| ensures IssueFor(request, order, actions[i]) {
      assert IssueFor(request, order[1..], actions[i]);
    }
  }

  /** A greedy pass consists of leases of cells of its list, as requested. */
  lemma {:induction false} GreedyIssues(m: Manifest, db: Db, request: LeaseRequest, order: seq<CellId>, taken: nat,
                                        drawn: nat)
    requires Fits(m, db)
    requires forall i | 0 <= i < |order| :: order[i] < |db.rows|
    ensures var r := PlanGreedy(m, db, request, order, taken, drawn); r.Ok? ==> AllIssues(request, order, r.value)
    decreases |order|
  {
    hide Wanted, Refused, FirstUsable, Draws, Do, Objection, DraftFor, AllIssues;
    if order == [] || taken >= request.limit {
      NoIssues(request, order);
    } else {
      match Choice(m, db, request, order[0], drawn)
      case Err(_) =>
      case Ok(None) =>
        GreedyIssues(m, db, request, order[1..], taken, drawn);
        var rest := PlanGreedy(m, db, request, order[1..], taken, drawn);
        if rest.Ok? {
          AllIssuesCons(request, order, rest.value, Expire(0, 0));
        }
      case Ok(Some((a, drawn'))) =>
        GreedyIssues(m, Do(m, db, a), request, order[1..], taken + 1, drawn');
        assert IssueFor(request, order, a);
        var rest := PlanGreedy(m, Do(m, db, a), request, order[1..], taken + 1, drawn');
        if rest.Ok? {
          AllIssuesCons(request, order, rest.value, a);
        }
    }
  }

  lemma NoIssues(request: LeaseRequest, order: seq<CellId>)
    ensures AllIssues(request, order, [])
  {
  }

  lemma {:induction false} ExtendAllMarks(m: Manifest, t: Trace, actions: seq<Action>)
    requires InRange(t.db, actions) && MarksRounded(t)
    requires forall i | 0 <= i < |actions| && actions[i].Finish? :: Money.Round8(actions[i].actual) == actions[i].actual
    ensures MarksRounded(ExtendAll(m, t, actions))
  {
    hide Do;
    Money.Round8Units(0);
    if actions != [] {
      ExtendAllMarks(m, t, actions[..|actions| - 1]);
    }
  }

  lemma CleanStart(m: Manifest, createdAt: int)
    ensures NothingDangles(m, Start(m, createdAt)) && MarksRounded(Start(m, createdAt))
  {
  }

  lemma CleanPrefix(m: Manifest, createdAt: int, calls: seq<Call>)
    requires calls != []
    ensures var n := |calls| - 1;
      && (NeverRequeuesLeased(m, createdAt, calls) ==>
            NeverRequeuesLeased(m, createdAt, calls[..n])
            && RequeuesUnleased(Run(m, createdAt, calls[..n]), calls[n]))
      && (ChargesRounded(calls) ==> ChargesRounded(calls[..n]))
  {
    hide Run;
    var n := |calls| - 1;
    forall i | 0 <= i < n ensures calls[..n][..i] == calls[..i] && calls[..n][i] == calls[i] {}
  }

  lemma {:induction false} CleanRun(m: Manifest, createdAt: int, calls: seq<Call>)
    requires NothingLeased(m)
    ensures NeverRequeuesLeased(m, createdAt, calls) ==> NothingDangles(m, Run(m, createdAt, calls))
    ensures ChargesRounded(calls) ==> MarksRounded(Run(m, createdAt, calls))
  {
    hide Inv, Plan, NothingDangles, MarksRounded, Start, NeverRequeuesLeased;
    if calls == [] {
      CleanStart(m, createdAt);
    } else {
      var n := |calls| - 1;
      CleanRun(m, createdAt, calls[..n]);
      CleanPrefix(m, createdAt, calls);
      RunInv(m, createdAt, calls[..n]);
      var t := Run(m, createdAt, calls[..n]);
      CleanCall(m, t, calls[n]);
    }
  }

  /** If the call is a requeue, then of a cell that is not leased. */
  predicate RequeuesUnleased(t: Trace, call: Call) {
    call.RequeueFailed? && call.cell < |t.db.rows| ==> !t.db.rows[call.cell].state.Leased?
  }

  lemma CleanCall(m: Manifest, t: Trace, call: Call)
    requires Inv(m, t)
    ensures NothingDangles(m, t) && RequeuesUnleased(t, call) ==> NothingDangles(m, After(m, t, call))
    ensures MarksRounded(t) && (call.Complete? ==> Money.Round8(call.actual) == call.actual)
      ==> MarksRounded(After(m, t, call))
  {
    hide NothingDangles, MarksRounded, Plan;
    if Plan(m, t.db, call).Ok? {
      PlanEnabled(m, t.db, call);
      PlanRequeues(m, t.db, call);
      var actions := Plan(m, t.db, call).value;
      if NothingDangles(m, t) && RequeuesUnleased(t, call) {
        ExtendAllNothingDangles(m, t, actions);
      }
      if MarksRounded(t) && (call.Complete? ==> Money.Round8(call.actual) == call.actual) {
        ExtendAllMarks(m, t, actions);
      }
    }
  }

  lemma {:induction false} NoDriftWhenRounded(events: seq<Event>, marks: seq<Mark>, c: CellId)
    requires |events| == |marks|
    requires forall i | 0 <= i < |marks| :: Money.Round8(marks[i].charge) == marks[i].charge
    ensures UnroundedIn(events, marks, c) == 0
  {
    if events != [] {
      var n := |events| - 1;
      NoDriftWhenRounded(events[..n], marks[..n], c);
    }
  }

  /**
   * A run that never requeues a leased cell and whose charges are whole units, as the worker's
   * are, always reconciles, and every cell's replayed cost equals the stored one.
   */
  lemma CleanRunReconciles(m: Manifest, createdAt: int, calls: seq<Call>)
    requires NothingLeased(m)
    requires NeverRequeuesLeased(m, createdAt, calls) && ChargesRounded(calls)
    ensures var db := Run(m, createdAt, calls).db;
      && Reconciled(m, db)
      && forall c | 0 <= c < |m.cells| :: db.rows[c].actual == LoggedCost(db.events, c)
  {
    CleanRun(m, createdAt, calls);
    RunInv(m, createdAt, calls);
    var t := Run(m, createdAt, calls);
    CleanTrace(m, t);
  }

  lemma CleanTrace(m: Manifest, t: Trace)
    requires LogAgrees(m, t) && LeaseFields(m, t) && NothingDangles(m, t) && MarksRounded(t)
    ensures Reconciled(m, t.db)
    ensures forall c | 0 <= c < |m.cells| :: t.db.rows[c].actual == LoggedCost(t.db.events, c)
  {
    ReconciledFrom(m, t);
    forall c | 0 <= c < |m.cells|
      ensures Drift(t, c) == 0.0 && t.db.rows[c].actual == LoggedCost(t.db.events, c)
    {
      NoDriftWhenRounded(t.db.events, t.marks, c);
      forall i | 0 <= i < |t.marks| ensures t.db.events[i].columns.actual == Money.Round8(t.marks[i].charge) {
        assert AmountLogged(t.db.events[i].columns, t.marks[i]);
      }
      DriftBound(t.db.events, t.marks, c);
    }
  }

  /**
   * requeue_failed_cell consults only the transition table, which also admits leased to ready.
   * On a reconciled store a successful requeue keeps it reconciled exactly when the cell was not
   * leased.
   */
  lemma RequeueReconcilesIffNotLeased(m: Manifest, createdAt: int, calls: seq<Call>,
                                      c: CellId, reason: string, requestedBy: Option<string>, at: int)
    requires NothingLeased(m) && c < |m.cells|
    requires Reconciled(m, Run(m, createdAt, calls).db)
    requires Plan(m, Run(m, createdAt, calls).db, RequeueFailed(c, reason, requestedBy, at)).Ok?
    ensures var db := Run(m, createdAt, calls).db;
      Reconciled(m, Step(m, db, RequeueFailed(c, reason, requestedBy, at))) <==> !db.rows[c].state.Leased?
  {
    hide Reconciled, Do, Enabled, Run, Objection, DraftFor;
    var call := RequeueFailed(c, reason, requestedBy, at);
    var a := Requeue(c, at, requestedBy, reason);
    RunInv(m, createdAt, calls);
    var t := Run(m, createdAt, calls);
    PlanEnabled(m, t.db, call);
    assert EnabledAll(m, t.db, [a]) && Enabled(m, DoAll(m, t.db, [a][..0]), [a][0]);
    RequeuedTrace(m, t, a);
    StepOne(m, t.db, call, a);
  }

  lemma StepOne(m: Manifest, db: Db, call: Call, a: Action)
    requires Fits(m, db) && a.cell < |db.rows| && Plan(m, db, call) == Ok([a])
    ensures Step(m, db, call) == Do(m, db, a)
  {
    hide Plan, Do;
    assert [a][..0] == [] && [a][|[a]| - 1] == a;
    assert DoAll(m, db, [a]) == Do(m, DoAll(m, db, [a][..0]), a);
  }

  lemma RequeuedTrace(m: Manifest, t: Trace, a: Action)
    requires LogAgrees(m, t) && LeaseFields(m, t) && a.Requeue? && a.cell < |t.db.rows| && Enabled(m, t.db, a)
    requires Reconciled(m, t.db)
    ensures Reconciled(m, Extend(m, t, a).db) <==> !t.db.rows[a.cell].state.Leased?
  {
    hide Enabled, Extend, ChainValid, Drift, StatesReplayed, LeasesSound, CostsReplayed;
    var t' := Extend(m, t, a);
    ReconciledFrom(m, t);
    StepLogAgrees(m, t, a);
    StepLeaseFields(m, t, a);
    ReconciledFrom(m, t');
    forall c | 0 <= c < |m.cells|
      ensures Drift(t', c) == Drift(t, c)
      ensures Dangling(t'.db.events, c) <==> t.db.rows[c].state.Leased? && c == a.cell
    {
      RequeueLogs(m, t, a, c);
    }
  }

  lemma RequeueLogs(m: Manifest, t: Trace, a: Action, c: CellId)
    requires |t.marks| == |t.db.events| && c < |m.cells| && a.Requeue? && Enabled(m, t.db, a)
    ensures var t' := Extend(m, t, a);
      && |t'.marks| == |t'.db.events|
      && Drift(t', c) == Drift(t, c)
      && (Dangling(t'.db.events, c) <==>
            if c == a.cell then t.db.rows[c].state.Leased? else Dangling(t.db.events, c))
  {
    var e := EventFor(m, t.db.events, DraftFor(m, t.db, a));
    LogSnoc(m, t.db.events, t.marks, e, MarkOf(a), c);
    Money.Round8Units(0);
  }
}
