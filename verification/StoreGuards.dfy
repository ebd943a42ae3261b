/** Exactly which calls keep a reconciled store reconciled, one by one and over whole runs. */
module StoreGuards {
  import opened Prelude
  import opened Campaign
  import opened Store
  import opened StoreRuns
  import opened StoreLog
  import opened StoreInvariants
  import opened StoreReconcile
  import opened StoreSafety
  import Money

  /** How far the stored cost of a cell is ahead of the logged one. */
  function Gap(db: Db, c: CellId): real
    requires c < |db.rows|
  {
    db.rows[c].actual - LoggedCost(db.events, c)
  }

  /** What a caller can test before charging an amount to a cell. */
  predicate Tolerable(db: Db, c: CellId, charge: real)
    requires c < |db.rows|
  {
    AbsReal(Gap(db, c) + charge - Money.Round8(charge)) <= Money.UNIT
  }

  lemma GapStep(m: Manifest, db: Db, a: Action, c: CellId)
    requires Fits(m, db) && a.cell < |db.rows| && c < |db.rows|
    ensures Gap(Do(m, db, a), c) == Gap(db, c)
      + (if a.Finish? && c == a.cell then a.actual - Money.Round8(a.actual) else 0.0)
  {
    Money.Round8Units(0);
    var e := EventFor(m, db.events, DraftFor(m, db, a));
    assert (db.events + [e])[..|db.events|] == db.events;
  }

  lemma {:induction false} GapKept(m: Manifest, db: Db, actions: seq<Action>, c: CellId)
    requires Fits(m, db) && InRange(db, actions) && c < |db.rows|
    requires forall i | 0 <= i < |actions| :: !actions[i].Finish?
    ensures Gap(DoAll(m, db, actions), c) == Gap(db, c)
  {
    hide Gap, Do;
    if actions != [] {
      var n := |actions| - 1;
      GapKept(m, db, actions[..n], c);
      GapStep(m, DoAll(m, db, actions[..n]), actions[n], c);
    }
  }

  /** On an intact log the cost check is that every gap is within a unit. */
  lemma CostsAreGaps(m: Manifest, t: Trace)
    requires LogAgrees(m, t)
    ensures CostsReplayed(m, t.db) <==> forall c | 0 <= c < |m.cells| :: AbsReal(Gap(t.db, c)) <= Money.UNIT
  {
    WholeLogAccepted(m, t.db);
    var db := t.db;
    forall c | 0 <= c < |m.cells| ensures Gap(db, c) == db.rows[c].actual - LoggedCost(AcceptedEvents(m, db), c) {}
    if CostsReplayed(m, db) {
      forall c | 0 <= c < |m.cells| ensures AbsReal(Gap(db, c)) <= Money.UNIT {
        assert AbsReal(db.rows[c].actual - LoggedCost(AcceptedEvents(m, db), c)) <= Money.UNIT;
      }
    }
  }

  /** The call is not an accepted completion, or its charge is tolerable. */
  predicate ChargeTolerated(m: Manifest, db: Db, call: Call)
    requires Fits(m, db)
  {
    call.Complete? && Plan(m, db, call).Ok? ==> call.cell < |db.rows| && Tolerable(db, call.cell, call.actual)
  }

  lemma ChargeGaps(m: Manifest, db: Db, call: Call, c: CellId)
    requires Fits(m, db) && c < |db.rows| && Plan(m, db, call).Ok?
    ensures Gap(Step(m, db, call), c) == Gap(db, c)
      + (if call.Complete? && c == call.cell then call.actual - Money.Round8(call.actual) else 0.0)
  {
    hide PlanLease, PlanReclaim, LeaseError, Gap, Do, Objection;
    CompletedInRange(m, db, call);
    if call.Complete? {
      var a := Finish(call.cell, call.at, call.worker, call.token, call.next, call.reason, call.actual, call.artifact);
      assert Plan(m, db, call) == Ok([a]);
      StepOne(m, db, call, a);
      GapStep(m, db, a, c);
    } else {
      PlanRequeues(m, db, call);
      GapKept(m, db, Plan(m, db, call).value, c);
    }
  }

  /**
   * After any run whose costs reconcile, a call keeps them reconciled if and only if it is not an
   * accepted completion, or its charge is tolerable: the gap it would leave is within a unit.
   */
  lemma CallKeepsCostsExactly(m: Manifest, createdAt: int, calls: seq<Call>, call: Call)
    requires NothingLeased(m)
    requires CostsReplayed(m, Run(m, createdAt, calls).db)
    ensures var db := Run(m, createdAt, calls).db;
      CostsReplayed(m, Step(m, db, call)) <==> ChargeTolerated(m, db, call)
  {
    hide CostsReplayed, Plan, Inv, Run, Gap;
    RunInv(m, createdAt, calls);
    var t := Run(m, createdAt, calls);
    CallInv(m, t, call);
    GapsAfterCall(m, t, call);
  }

  lemma GapsAfterCall(m: Manifest, t: Trace, call: Call)
    requires Inv(m, t) && Inv(m, After(m, t, call)) && CostsReplayed(m, t.db)
    ensures CostsReplayed(m, Step(m, t.db, call)) <==> ChargeTolerated(m, t.db, call)
  {
    hide CostsReplayed, Plan, Gap, LogAgrees, LeaseFields, Fenced, LiveTokens, Horizons, DoAll;
    var db, after := t.db, After(m, t, call).db;
    assert after == Step(m, db, call);
    CompletedInRange(m, db, call);
    CostsAreGaps(m, t);
    CostsAreGaps(m, After(m, t, call));
    if Plan(m, db, call).Ok? {
      forall c | 0 <= c < |m.cells|
        ensures Gap(after, c) == Gap(db, c)
          + (if call.Complete? && c == call.cell then call.actual - Money.Round8(call.actual) else 0.0)
      {
        ChargeGaps(m, db, call, c);
      }
    }
  }

  lemma CompletedInRange(m: Manifest, db: Db, call: Call)
    requires Fits(m, db)
    ensures call.Complete? && Plan(m, db, call).Ok? ==> call.cell < |db.rows|
  {
  }

  // ---------------------------------------------------------------- the whole verdict

  /** What a caller can test before any call: no intolerable charge, no requeue of a leased cell. */
  predicate Sound(m: Manifest, db: Db, call: Call)
    requires Fits(m, db)
  {
    && ChargeTolerated(m, db, call)
    && (call.RequeueFailed? && Plan(m, db, call).Ok? ==> call.cell < |db.rows| && !db.rows[call.cell].state.Leased?)
  }

  /** On a reconciled store a call keeps it reconciled if and only if it is sound. */
  lemma CallKeepsReconciledExactly(m: Manifest, createdAt: int, calls: seq<Call>, call: Call)
    requires NothingLeased(m)
    requires Reconciled(m, Run(m, createdAt, calls).db)
    ensures var db := Run(m, createdAt, calls).db;
      Reconciled(m, Step(m, db, call)) <==> Sound(m, db, call)
  {
    hide CostsReplayed, LeasesSound, StatesReplayed, ChainValid, Plan, Inv, Run, ChargeTolerated, Step;
    var t := Run(m, createdAt, calls);
    CallKeepsCostsExactly(m, createdAt, calls, call);
    RunInv(m, createdAt, calls);
    InvGivesFields(m, t);
    CallInv(m, t, call);
    InvGivesFields(m, After(m, t, call));
    ReconciledFrom(m, t);
    ReconciledFrom(m, After(m, t, call));
    RequeueInRange(m, t.db, call);
    if Plan(m, t.db, call).Ok? && call.RequeueFailed? {
      RequeueReconcilesIffNotLeased(m, createdAt, calls, call.cell, call.reason, call.requestedBy, call.at);
    } else if Plan(m, t.db, call).Ok? {
      CleanCall(m, t, call);
    } else {
      RefusedChangesNothing(m, t.db, call);
    }
  }

  lemma InvGivesFields(m: Manifest, t: Trace)
    requires Inv(m, t)
    ensures LogAgrees(m, t) && LeaseFields(m, t) && Fits(m, t.db) && ChainValid(m, t.db.events)
  {
  }

  lemma RefusedChangesNothing(m: Manifest, db: Db, call: Call)
    requires Fits(m, db) && Plan(m, db, call).Err?
    ensures Step(m, db, call) == db
  {
  }

  lemma RequeueInRange(m: Manifest, db: Db, call: Call)
    requires Fits(m, db)
    ensures call.RequeueFailed? && Plan(m, db, call).Ok? ==> call.cell < |db.rows|
  {
  }

  /** Every call of the run was sound when it was made. */
  ghost predicate AllSound(m: Manifest, createdAt: int, calls: seq<Call>) {
    forall i | 0 <= i < |calls| :: Sound(m, Run(m, createdAt, calls[..i]).db, calls[i])
  }

  /** The store reconciles at every point of the run. */
  ghost predicate AlwaysReconciled(m: Manifest, createdAt: int, calls: seq<Call>) {
    forall i | 0 <= i <= |calls| :: Reconciled(m, Run(m, createdAt, calls[..i]).db)
  }

  lemma AlwaysSnoc(m: Manifest, createdAt: int, calls: seq<Call>)
    requires calls != []
    ensures AlwaysReconciled(m, createdAt, calls) <==>
      AlwaysReconciled(m, createdAt, calls[..|calls| - 1]) && Reconciled(m, Run(m, createdAt, calls).db)
  {
    hide Reconciled, Run;
    var n := |calls| - 1;
    var init := calls[..n];
    assert calls[..|calls|] == calls;
    forall i | 0 <= i <= n ensures init[..i] == calls[..i] {}
    if AlwaysReconciled(m, createdAt, init) && Reconciled(m, Run(m, createdAt, calls).db) {
      forall i | 0 <= i <= |calls| ensures Reconciled(m, Run(m, createdAt, calls[..i]).db) {
        assert i <= n ==> init[..i] == calls[..i];
      }
    }
    if AlwaysReconciled(m, createdAt, calls) {
      forall i | 0 <= i <= n ensures Reconciled(m, Run(m, createdAt, init[..i]).db) {
        assert Reconciled(m, Run(m, createdAt, calls[..i]).db);
      }
      assert Reconciled(m, Run(m, createdAt, calls[..|calls|]).db);
    }
  }

  lemma SoundSnoc(m: Manifest, createdAt: int, calls: seq<Call>)
    requires calls != []
    ensures var init, call := calls[..|calls| - 1], calls[|calls| - 1];
      AllSound(m, createdAt, calls) <==> AllSound(m, createdAt, init) && Sound(m, Run(m, createdAt, init).db, call)
  {
    hide Sound, Run;
    var n := |calls| - 1;
    var init := calls[..n];
    forall i | 0 <= i <= n ensures init[..i] == calls[..i] {}
    if AllSound(m, createdAt, init) && Sound(m, Run(m, createdAt, init).db, calls[n]) {
      forall i | 0 <= i < |calls| ensures Sound(m, Run(m, createdAt, calls[..i]).db, calls[i]) {
        if i < n {
          assert init[i] == calls[i] && init[..i] == calls[..i];
        }
      }
    }
    if AllSound(m, createdAt, calls) {
      forall i | 0 <= i < n ensures Sound(m, Run(m, createdAt, init[..i]).db, init[i]) {
        assert Sound(m, Run(m, createdAt, calls[..i]).db, calls[i]);
      }
      assert Sound(m, Run(m, createdAt, calls[..n]).db, calls[n]);
    }
  }

  lemma NoCalls(m: Manifest, createdAt: int)
    requires NothingLeased(m)
    ensures AlwaysReconciled(m, createdAt, []) && AllSound(m, createdAt, [])
  {
    var none: seq<Call> := [];
    assert none[..0] == none;
    CleanRunReconciles(m, createdAt, none);
  }

  lemma LastReconciled(m: Manifest, createdAt: int, calls: seq<Call>)
    requires AlwaysReconciled(m, createdAt, calls)
    ensures Reconciled(m, Run(m, createdAt, calls).db)
  {
    assert calls[..|calls|] == calls;
  }

  /**
   * Over whole runs: the store reconciles at every point exactly when every accepted charge was
   * tolerable and every accepted requeue was of a cell that was not leased.
   */
  lemma {:induction false} AlwaysReconciledExactly(m: Manifest, createdAt: int, calls: seq<Call>)
    requires NothingLeased(m)
    ensures AlwaysReconciled(m, createdAt, calls) <==> AllSound(m, createdAt, calls)
  {
    hide Reconciled, Sound, AlwaysReconciled, AllSound, Step, After, Start;
    if calls == [] {
      NoCalls(m, createdAt);
    } else {
      var init := calls[..|calls| - 1];
      AlwaysReconciledExactly(m, createdAt, init);
      AlwaysSnoc(m, createdAt, calls);
      SoundSnoc(m, createdAt, calls);
      if AlwaysReconciled(m, createdAt, init) {
        LastReconciled(m, createdAt, init);
        CallKeepsReconciledExactly(m, createdAt, init, calls[|calls| - 1]);
      }
    }
  }
}
