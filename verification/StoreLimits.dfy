/** Concrete runs on which the store does not reconcile. */
module StoreLimits {
  import opened Prelude
  import opened Campaign
  import opened Store
  import opened StoreRuns
  import opened StoreLog
  import opened StoreReconcile
  import opened StoreSafety
  import Money
  import Text

  /** One ready cell of unit price. */
  const ONE_CELL := Manifest("campaign", Some(10.0), 1, Pass, [Cell("stage", "model", "task", 0, Ready, Some(1.0))])

  function LeaseAt(token: string, at: int): Call {
    Lease(LeaseRequest("w", 1, 10, None, None, at, [token]))
  }

  /** Leasing the cell from any state in which it is ready, cheap and the token is unused. */
  lemma LeaseOne(db: Db, token: string, at: int)
    requires |db.rows| == 1 && db.rows[0].state.Ready? && db.rows[0].actual <= 1.0
    requires |token| == 1 && !Text.IsSpace(token[0]) && !TokenSeen(db, "LEASE-" + token)
    ensures Plan(ONE_CELL, db, LeaseAt(token, at)) == Ok([Issue(0, at, 10, "w", "LEASE-" + token)])
  {
    hide TokenSeen, Text.Strip, PlanGreedy, Expirations, Spent, Reserved, Active;
    var m := ONE_CELL;
    var request := LeaseAt(token, at).request;
    var a := Issue(0, at, 10, "w", "LEASE-" + token);
    OneCellOrder();
    OneCellTotals(db);
    OneCellExpirations(db, at);
    OneToken(db, token, at);
    Text.NotBlank("worker-lease:w");
    Text.NotBlank("w");
    assert "worker-lease:" + "w" == "worker-lease:w";
    assert Objection(DraftFor(m, db, a)).None?;
    assert Choice(m, db, request, 0, 0) == Ok(Some((a, 1)));
    OneCellGreedy(db, request, a);
    assert PlanReclaim(m, db, at) == Ok([]);
    assert DoAll(m, db, []) == db;
    assert [] + [a] == [a];
  }

  lemma OneCellOrder()
    ensures KeyOrder(ONE_CELL.cells) == [0]
  {
    assert KeyOrderTo(ONE_CELL.cells, 0) == [];
  }

  lemma OneCellTotals(db: Db)
    requires |db.rows| == 1 && db.rows[0].state.Ready?
    ensures Spent(db.rows) == db.rows[0].actual && Reserved(ONE_CELL, db.rows) == 0.0
    ensures Active(ONE_CELL, db.rows, "model") == 0
  {
    assert Actuals(db.rows) == [db.rows[0].actual];
    SumOne(db.rows[0].actual);
    assert Reservations(ONE_CELL, db.rows) == [0.0];
    SumOne(0.0);
    assert ActiveFlags(ONE_CELL, db.rows, "model") == [false];
    assert [false][..0] == [];
  }

  lemma OneCellExpirations(db: Db, at: int)
    requires |db.rows| == 1 && db.rows[0].state.Ready?
    ensures Expirations(db, [0], at) == []
  {
    assert [0][..0] == [];
  }

  lemma OneToken(db: Db, token: string, at: int)
    requires |token| == 1 && !Text.IsSpace(token[0]) && !TokenSeen(db, "LEASE-" + token)
    ensures FirstUsable(db, Draws([token], 0)) == Some(("LEASE-" + token, 1))
  {
    hide TokenSeen;
    assert Draws([token], 0)[0] == token;
  }

  lemma OneCellGreedy(db: Db, request: LeaseRequest, a: Action)
    requires |db.rows| == 1 && a.cell == 0 && request.limit == 1
    requires Choice(ONE_CELL, db, request, 0, 0) == Ok(Some((a, 1)))
    ensures PlanGreedy(ONE_CELL, db, request, [0], 0, 0) == Ok([a])
  {
    hide Choice, Do;
    assert [a] + [] == [a] && [0][1..] == [];
    assert PlanGreedy(ONE_CELL, Do(ONE_CELL, db, a), request, [], 1, 1) == Ok([]);
  }

  /** Lease the cell, then requeue it while the lease is live. */
  lemma RequeueLeasedDoesNotReconcile()
    ensures NothingLeased(ONE_CELL)
    ensures !Reconciled(ONE_CELL, Run(ONE_CELL, 0, [] + [LeaseAt("x", 0)] + [RequeueFailed(0, "retry", None, 1)]).db)
  {
    hide PlanLease, Text.Strip, ChainValid, StatesReplayed, CostsReplayed;
    Text.NotBlank("retry");
    LeasedOne();
    var leased := Run(ONE_CELL, 0, [] + [LeaseAt("x", 0)]).db;
    var requeue := Requeue(0, 1, None, "retry");
    assert Objection(DraftFor(ONE_CELL, leased, requeue)).None?;
    StepOne(ONE_CELL, leased, RequeueFailed(0, "retry", None, 1), requeue);
    RunSnoc(ONE_CELL, 0, [] + [LeaseAt("x", 0)], RequeueFailed(0, "retry", None, 1));
    var final := Do(ONE_CELL, leased, requeue);
    assert Run(ONE_CELL, 0, [] + [LeaseAt("x", 0)] + [RequeueFailed(0, "retry", None, 1)]).db == final;
    assert !LeaseFieldsSound(final.rows[0]);
  }

  // ---------------------------------------------------------------- artifacts are not checked

  function CompleteOne(): Call {
    Complete(0, "w", "LEASE-x", Succeeded, "done", 1.0, Some("artifact"), 1)
  }

  /** The store after the cell was leased under "LEASE-x". */
  lemma LeasedOne()
    ensures var db := Run(ONE_CELL, 0, [] + [LeaseAt("x", 0)]).db;
      db == Do(ONE_CELL, Start(ONE_CELL, 0).db, Issue(0, 0, 10, "w", "LEASE-x"))
    ensures Plan(ONE_CELL, Start(ONE_CELL, 0).db, LeaseAt("x", 0)) == Ok([Issue(0, 0, 10, "w", "LEASE-x")])
  {
    hide PlanLease, Text.Strip;
    var start := Start(ONE_CELL, 0).db;
    assert "LEASE-" + "x" == "LEASE-x";
    LeaseOne(start, "x", 0);
    StepOne(ONE_CELL, start, LeaseAt("x", 0), Issue(0, 0, 10, "w", "LEASE-x"));
    RunSnoc(ONE_CELL, 0, [], LeaseAt("x", 0));
    assert Run(ONE_CELL, 0, []).db == start;
  }

  /** Lease and complete the cell, then drop the artifact from its row: the store still reconciles. */
  lemma SucceededWithoutArtifactReconciles()
    ensures var db := Run(ONE_CELL, 0, [] + [LeaseAt("x", 0)] + [CompleteOne()]).db;
      && |db.rows| == 1
      && var row := db.rows[0].(artifact := None);
         && row.state.Succeeded?
         && Reconciled(ONE_CELL, db) && Reconciled(ONE_CELL, db.(rows := [row]))
  {
    hide PlanLease, Text.Strip, Reconciled;
    Text.NotBlank("done");
    LeasedOne();
    var calls := [] + [LeaseAt("x", 0)] + [CompleteOne()];
    var leased := Run(ONE_CELL, 0, [] + [LeaseAt("x", 0)]).db;
    var finish := Finish(0, 1, "w", "LEASE-x", Succeeded, "done", 1.0, Some("artifact"));
    assert Objection(DraftFor(ONE_CELL, leased, finish)).None?;
    StepOne(ONE_CELL, leased, CompleteOne(), finish);
    RunSnoc(ONE_CELL, 0, [] + [LeaseAt("x", 0)], CompleteOne());
    Money.Round8Units(100000000);
    assert Money.Units(100000000) == 1.0;
    CleanRunReconciles(ONE_CELL, 0, calls);
    var db := Run(ONE_CELL, 0, calls).db;
    assert db == Do(ONE_CELL, leased, finish);
    ArtifactsUnchecked(ONE_CELL, db, 0, None);
    assert db.rows[0 := db.rows[0].(artifact := None)] == [db.rows[0].(artifact := None)];
  }

  // ---------------------------------------------------------------- rounding drift

  const TOKENS := "abc"
  const HALF_UNIT := 0.000000005

  /** n times: lease the cell, then release it with half a unit charged. */
  function Releases(n: nat): seq<Call>
    requires n <= 3
  {
    if n == 0 then []
    else Releases(n - 1) + [LeaseAt([TOKENS[n - 1]], 0)]
           + [Complete(0, "w", "LEASE-" + [TOKENS[n - 1]], Ready, "release", HALF_UNIT, None, 1)]
  }

  ghost predicate Released(db: Db, n: nat) {
    && |db.rows| == 1
    && db.rows[0].state.Ready?
    && db.rows[0].token.None?
    && db.rows[0].actual == n as real * HALF_UNIT
    && (forall i | 0 <= i < |db.events| ::
          && db.events[i].columns.actual == 0.0
          && (forall k | n <= k < 3 :: db.events[i].columns.token != Some("LEASE-" + [TOKENS[k]])))
  }

  lemma ReleasedStart()
    ensures Released(Run(ONE_CELL, 0, Releases(0)).db, 0)
  {
  }

  lemma ReleaseOnce(db: Db, n: nat)
    requires Released(db, n) && n < 3
    ensures var token := "LEASE-" + [TOKENS[n]];
      var leased := Step(ONE_CELL, db, LeaseAt([TOKENS[n]], 0));
      Released(Step(ONE_CELL, leased, Complete(0, "w", token, Ready, "release", HALF_UNIT, None, 1)), n + 1)
  {
    hide PlanLease, Text.Strip;
    Text.NotBlank("release");
    var token := "LEASE-" + [TOKENS[n]];
    assert !TokenSeen(db, token);
    LeaseOne(db, [TOKENS[n]], 0);
    var issue := Issue(0, 0, 10, "w", token);
    StepOne(ONE_CELL, db, LeaseAt([TOKENS[n]], 0), issue);
    var leased := Do(ONE_CELL, db, issue);
    var finish := Finish(0, 1, "w", token, Ready, "release", HALF_UNIT, None);
    assert Objection(DraftFor(ONE_CELL, leased, finish)).None?;
    StepOne(ONE_CELL, leased, Complete(0, "w", token, Ready, "release", HALF_UNIT, None, 1), finish);
    assert Money.Round8(0.0) == 0.0 && Money.Round8(HALF_UNIT) == 0.0;
    forall k | n < k < 3 ensures token != "LEASE-" + [TOKENS[k]] {
      assert token[6] != ("LEASE-" + [TOKENS[k]])[6];
    }
  }

  lemma {:induction false} ReleasedAfter(n: nat)
    requires n <= 3
    ensures Released(Run(ONE_CELL, 0, Releases(n)).db, n)
  {
    hide Released, Step, Plan;
    if n == 0 {
      ReleasedStart();
    } else {
      ReleasedAfter(n - 1);
      var lease := LeaseAt([TOKENS[n - 1]], 0);
      var complete := Complete(0, "w", "LEASE-" + [TOKENS[n - 1]], Ready, "release", HALF_UNIT, None, 1);
      ReleaseOnce(Run(ONE_CELL, 0, Releases(n - 1)).db, n - 1);
      RunSnoc(ONE_CELL, 0, Releases(n - 1), lease);
      RunSnoc(ONE_CELL, 0, Releases(n - 1) + [lease], complete);
    }
  }

  lemma {:induction false} NothingLogged(events: seq<Event>, c: CellId)
    requires forall i | 0 <= i < |events| :: events[i].columns.actual == 0.0
    ensures LoggedCost(events, c) == 0.0
  {
    if events != [] {
      NothingLogged(events[..|events| - 1], c);
    }
  }

  /** Three unrounded charges do trip the tolerance: the table holds 1.5 units, the log none. */
  lemma ThreeHalfUnitsDoNotReconcile()
    ensures NothingLeased(ONE_CELL)
    ensures !CostsReplayed(ONE_CELL, Run(ONE_CELL, 0, Releases(3)).db)
  {
    hide Run, Releases, ChainValid, StatesReplayed, LeasesSound, DriftTolerated, AcceptedEvents;
    var db := Run(ONE_CELL, 0, Releases(3)).db;
    ReleasedAfter(3);
    ReconcileAfterRun(ONE_CELL, 0, Releases(3));
    WholeLogAccepted(ONE_CELL, db);
    NothingLogged(db.events, 0);
    assert AbsReal(db.rows[0].actual - LoggedCost(AcceptedEvents(ONE_CELL, db), 0)) > Money.UNIT;
  }
}
