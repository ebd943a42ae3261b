/** Histories: the log is append-only, its head commits to it, tokens fence, budgets and caps hold. */
module StoreHistory {
  import opened Prelude
  import opened Campaign
  import opened Store
  import opened StoreRuns
  import opened StoreLog
  import opened StoreInvariants
  import opened StoreReconcile
  import opened StoreSafety

  /** Two intact logs with the same last hash are the same log, column by column. */
  lemma {:induction false} HeadHashCommits(m: Manifest, events: seq<Event>, m': Manifest, events': seq<Event>)
    requires ChainValid(m, events) && ChainValid(m', events')
    requires events != [] && events' != []
    requires events[|events| - 1].hash == events'[|events'| - 1].hash
    ensures events == events'
  {
    var n, n' := |events| - 1, |events'| - 1;
    assert Linked(m, events, n) && Linked(m', events', n');
    assert events[n] == events'[n'] && n == n';
    assert events == events[..n] + [events[n]] && events' == events'[..n] + [events'[n]];
    if n > 0 {
      ChainSnoc(m, events[..n], events[n]);
      ChainSnoc(m', events'[..n], events'[n]);
      HeadHashCommits(m, events[..n], m', events'[..n]);
    }
  }

  /**
   * Tampering is detected: replace any one event row of an intact log, rehashed or not, and the
   * log is intact again exactly if it was the last row and the forged one passes replay's checks
   * there, which needs a new hash.
   */
  lemma TamperingDetected(m: Manifest, events: seq<Event>, i: nat, forged: Event)
    requires ChainValid(m, events) && i < |events| && forged != events[i]
    ensures ChainValid(m, events[i := forged]) <==> i == |events| - 1 && Linked(m, events[i := forged], i)
    ensures ChainValid(m, events[i := forged]) ==> forged.hash != events[i].hash
  {
    var tampered := events[i := forged];
    var n := |events| - 1;
    assert tampered[i] != events[i];
    if i == n {
      assert tampered == events[..n] + [forged] && events == events[..n] + [events[n]];
      ChainSnoc(m, events[..n], events[n]);
      ChainSnoc(m, events[..n], forged);
    }
    if ChainValid(m, tampered) && (i < n || forged.hash == events[i].hash) {
      HeadHashCommits(m, events, m, tampered);
    }
  }

  /** The last row with its reason rewritten in columns and payload, and rehashed. */
  function Rewritten(events: seq<Event>, reason: string): seq<Event>
    requires events != []
  {
    var n := |events| - 1;
    var payload := events[n].columns.(reason := reason);
    events[n := Event(payload, payload, ContentHash(payload))]
  }

  /** A last row rewritten in this way goes undetected, by the whole reconciler. */
  lemma RewrittenLastRowUndetected(m: Manifest, db: Db, reason: string)
    requires Reconciled(m, db) && db.events != [] && reason != db.events[|db.events| - 1].columns.reason
    ensures Rewritten(db.events, reason) != db.events
    ensures Reconciled(m, db.(events := Rewritten(db.events, reason)))
  {
    var n := |db.events| - 1;
    var init, last := db.events[..n], db.events[n];
    var rewritten := Rewritten(db.events, reason);
    assert db.events == init + [last] && rewritten == init + [rewritten[n]];
    assert Linked(m, db.events, n);
    ChainSnoc(m, init, last);
    ChainSnoc(m, init, rewritten[n]);
    WholeLogAccepted(m, db);
    WholeLogAccepted(m, db.(events := rewritten));
  }

  lemma {:induction false} ActionsAppend(m: Manifest, db: Db, actions: seq<Action>)
    requires InRange(db, actions)
    ensures db.events <= DoAll(m, db, actions).events
  {
    if actions != [] {
      ActionsAppend(m, db, actions[..|actions| - 1]);
    }
  }

  /** Later calls only append to the log. */
  lemma {:induction false} LogIsAppendOnly(m: Manifest, createdAt: int, calls: seq<Call>, k: nat)
    requires k <= |calls|
    ensures Run(m, createdAt, calls[..k]).db.events <= Run(m, createdAt, calls).db.events
  {
    hide Plan, Start;
    if k == |calls| {
      assert calls[..k] == calls;
    } else {
      var n := |calls| - 1;
      LogIsAppendOnly(m, createdAt, calls[..n], k);
      assert calls[..n][..k] == calls[..k];
      var t := Run(m, createdAt, calls[..n]);
      var r := Plan(m, t.db, calls[n]);
      if r.Ok? {
        ActionsAppend(m, t.db, r.value);
      }
    }
  }

  predicate Carries(e: Event, token: string) {
    e.columns.token == Some(token)
  }

  predicate Closes(e: Event) {
    e.columns.previous.Leased? && !e.columns.next.Leased?
  }

  predicate SameAttempt(e: Event, e': Event) {
    e.columns.cell == e'.columns.cell && e.columns.attempt == e'.columns.attempt
  }

  /**
   * Fencing over whole runs. A token belongs to one cell and one attempt forever, an attempt has
   * one token, at most one event carrying a token closes its lease, and however the run goes on
   * no later event carries it.
   */
  lemma TokensFence(m: Manifest, createdAt: int, calls: seq<Call>, i: nat, j: nat, token: string)
    requires NothingLeased(m)
    requires var events := Run(m, createdAt, calls).db.events; i < j < |events| && Carries(events[i], token)
    ensures var events := Run(m, createdAt, calls).db.events;
      && (Carries(events[j], token) ==>
            SameAttempt(events[i], events[j]) && events[i].columns.next.Leased? && !Closes(events[i]))
      && (events[j].columns.token.Some? && SameAttempt(events[i], events[j]) ==> Carries(events[j], token))
  {
    RunInv(m, createdAt, calls);
    var events := Run(m, createdAt, calls).db.events;
    assert FencedPair(events[i].columns, events[j].columns);
  }

  /** Once closed, a token is dead: no continuation of the run logs it again. */
  lemma ClosedTokenNeverReturns(m: Manifest, createdAt: int, calls: seq<Call>, k: nat, i: nat, j: nat, token: string)
    requires NothingLeased(m) && k <= |calls|
    requires var events := Run(m, createdAt, calls[..k]).db.events;
      i < |events| && Carries(events[i], token) && Closes(events[i])
    requires |Run(m, createdAt, calls[..k]).db.events| <= j < |Run(m, createdAt, calls).db.events|
    ensures !Carries(Run(m, createdAt, calls).db.events[j], token)
  {
    hide Run;
    LogIsAppendOnly(m, createdAt, calls, k);
    var before, after := Run(m, createdAt, calls[..k]).db.events, Run(m, createdAt, calls).db.events;
    assert after[i] == before[i];
    TokensFence(m, createdAt, calls, i, j, token);
  }

  // ---------------------------------------------------------------- ended leases

  /** The first event carries a token; after the second, of the same cell, its lease has ended. */
  predicate Ended(x: Payload, y: Payload) {
    x.token.Some? && y.cell == x.cell && !y.next.Leased?
  }

  /** The token of an ended lease is on no live row. */
  ghost predicate Retired(db: Db) {
    forall i, j | 0 <= i < j < |db.events| && Ended(db.events[i].columns, db.events[j].columns) ::
      OffRow(db, db.events[i].columns)
  }

  ghost predicate OffRow(db: Db, x: Payload) {
    x.cell < |db.rows| && db.rows[x.cell].state.Leased? ==> db.rows[x.cell].token != x.token
  }

  /** And on no event after the end. */
  ghost predicate NoReturn(events: seq<Event>) {
    forall i, j, k | 0 <= i < j < k < |events| && Ended(events[i].columns, events[j].columns) ::
      events[k].columns.token != events[i].columns.token
  }

  lemma StepRetired(m: Manifest, db: Db, a: Action)
    requires Retired(db) && Enabled(m, db, a)
    ensures Retired(Do(m, db, a))
  {
    hide Refused, Objection;
    var db' := Do(m, db, a);
    var n := |db.events|;
    forall i, j | 0 <= i < j <= n && Ended(db'.events[i].columns, db'.events[j].columns)
      ensures OffRow(db', db'.events[i].columns)
    {
      assert db'.events[i] == db.events[i];
      if j < n {
        assert db'.events[j] == db.events[j];
        assert OffRow(db, db.events[i].columns);
      }
      if a.Issue? {
        assert db.events[i].columns.token != Some(a.token);
      }
    }
  }

  lemma StepNoReturn(m: Manifest, t: Trace, a: Action)
    requires LiveTokens(t.db) && Retired(t.db) && NoReturn(t.db.events) && Enabled(m, t.db, a)
    requires LeaseFields(m, t)
    ensures NoReturn(Do(m, t.db, a).events)
  {
    hide Refused, Objection, Counted;
    var db, db' := t.db, Do(m, t.db, a);
    var n := |db.events|;
    forall i, j, k | 0 <= i < j < k <= n && Ended(db'.events[i].columns, db'.events[j].columns)
      ensures db'.events[k].columns.token != db'.events[i].columns.token
    {
      assert db'.events[i] == db.events[i] && db'.events[j] == db.events[j];
      if k < n {
        assert db'.events[k] == db.events[k];
      } else {
        NotLoggedAgain(m, t, a, i, j);
      }
    }
  }

  lemma NotLoggedAgain(m: Manifest, t: Trace, a: Action, i: nat, j: nat)
    requires LiveTokens(t.db) && Retired(t.db) && Enabled(m, t.db, a) && LeaseFields(m, t)
    requires i < j < |t.db.events| && Ended(t.db.events[i].columns, t.db.events[j].columns)
    ensures DraftFor(m, t.db, a).token != t.db.events[i].columns.token
  {
    hide Refused, Objection, Counted;
    var db := t.db;
    assert OffRow(db, db.events[i].columns);
    if a.Issue? {
      assert db.events[i].columns.token != Some(a.token);
    } else if db.rows[a.cell].state.Leased? {
      assert Current(db.rows[a.cell], a.cell, db.events[i].columns);
    }
  }

  lemma {:induction false} ActionsRetire(m: Manifest, t: Trace, actions: seq<Action>)
    requires Inv(m, t) && EnabledAll(m, t.db, actions) && Retired(t.db) && NoReturn(t.db.events)
    ensures Retired(DoAll(m, t.db, actions)) && NoReturn(DoAll(m, t.db, actions).events)
  {
    hide Inv, Enabled, Do, Retired, NoReturn;
    if actions != [] {
      var n := |actions| - 1;
      EnabledPrefix(m, t.db, actions, n);
      ActionsRetire(m, t, actions[..n]);
      ExtendAllInv(m, t, actions[..n]);
      var before := ExtendAll(m, t, actions[..n]);
      InvGivesTokens(m, before);
      StepRetired(m, before.db, actions[n]);
      StepNoReturn(m, before, actions[n]);
    }
  }

  lemma InvGivesTokens(m: Manifest, t: Trace)
    requires Inv(m, t)
    ensures LiveTokens(t.db) && LeaseFields(m, t)
  {
  }

  lemma {:induction false} RunRetires(m: Manifest, createdAt: int, calls: seq<Call>)
    requires NothingLeased(m)
    ensures Retired(Run(m, createdAt, calls).db) && NoReturn(Run(m, createdAt, calls).db.events)
  {
    hide Inv, Plan, Retired, NoReturn;
    if calls == [] {
      StartRetired(m, createdAt);
    } else {
      var n := |calls| - 1;
      RunRetires(m, createdAt, calls[..n]);
      RunInv(m, createdAt, calls[..n]);
      var t := Run(m, createdAt, calls[..n]);
      PlanEnabled(m, t.db, calls[n]);
      if Plan(m, t.db, calls[n]).Ok? {
        ActionsRetire(m, t, Plan(m, t.db, calls[n]).value);
      }
    }
  }

  lemma StartRetired(m: Manifest, createdAt: int)
    ensures Retired(Start(m, createdAt).db) && NoReturn(Start(m, createdAt).db.events)
  {
  }

  /**
   * However a lease ends, be it closed under its token or abandoned by a requeue that names none,
   * no later event of any continuation carries its token.
   */
  lemma EndedLeaseNeverReturns(m: Manifest, createdAt: int, calls: seq<Call>, i: nat, j: nat, k: nat, token: string)
    requires NothingLeased(m)
    requires var events := Run(m, createdAt, calls).db.events;
      i < j < k < |events| && Carries(events[i], token)
      && events[j].columns.cell == events[i].columns.cell && !events[j].columns.next.Leased?
    ensures !Carries(Run(m, createdAt, calls).db.events[k], token)
  {
    hide Run;
    RunRetires(m, createdAt, calls);
    var events := Run(m, createdAt, calls).db.events;
    assert Ended(events[i].columns, events[j].columns);
  }

  /** A live lease expires at the latest expiry ever asked for under its token. */
  lemma LiveLeaseExpiry(m: Manifest, createdAt: int, calls: seq<Call>, c: CellId)
    requires NothingLeased(m) && c < |m.cells|
    requires Run(m, createdAt, calls).db.rows[c].state.Leased?
    ensures var t := Run(m, createdAt, calls);
      |t.marks| == |t.db.events| && LatestHorizon(t, c)
  {
    RunInv(m, createdAt, calls);
  }

  /**
   * Money spent and reserved never exceeds the hard budget by more than the amounts by which
   * charges overran their estimates; with no overrun it never exceeds it at all.
   */
  lemma BudgetHolds(m: Manifest, createdAt: int, calls: seq<Call>)
    requires NothingLeased(m) && m.hardBudget.Some? && m.hardBudget.value >= 0.0
    ensures var t := Run(m, createdAt, calls);
      && |t.marks| == |t.db.events|
      && Spent(t.db.rows) + Reserved(m, t.db.rows) <= m.hardBudget.value + Overrun(m, t.db.events, t.marks)
      && (NoOverrun(m, t) ==> Spent(t.db.rows) + Reserved(m, t.db.rows) <= m.hardBudget.value)
  {
    RunInv(m, createdAt, calls);
    var t := Run(m, createdAt, calls);
    if NoOverrun(m, t) {
      NoOverrunIsZero(m, t.db.events, t.marks);
    }
  }

  ghost predicate NoOverrun(m: Manifest, t: Trace)
    requires |t.marks| == |t.db.events|
  {
    forall i | 0 <= i < |t.marks| :: t.marks[i].charge <= EstimateOrZero(m, t.db.events[i].columns.cell)
  }

  lemma {:induction false} NoOverrunIsZero(m: Manifest, events: seq<Event>, marks: seq<Mark>)
    requires |events| == |marks|
    requires forall i | 0 <= i < |marks| :: marks[i].charge <= EstimateOrZero(m, events[i].columns.cell)
    ensures Overrun(m, events, marks) == 0.0
  {
    if events != [] {
      NoOverrunIsZero(m, events[..|events| - 1], marks[..|marks| - 1]);
    }
  }

  /** In every reachable state no model has more live leases than its cap. */
  lemma CapsHold(m: Manifest, createdAt: int, calls: seq<Call>, model: string)
    requires NothingLeased(m) && m.maxParallelPerModel >= 0
    ensures Active(m, Run(m, createdAt, calls).db.rows, model) <= m.maxParallelPerModel
  {
    RunInv(m, createdAt, calls);
  }
}
