/** Invariants of every run of the store, each preserved by every enabled change. */
module StoreInvariants {
  import opened Prelude
  import opened Campaign
  import opened Store
  import opened StoreRuns
  import opened StoreLog
  import Money
  import Text

  // ---------------------------------------------------------------- the log agrees with the table

  ghost predicate LogAgrees(m: Manifest, t: Trace) {
    && Shaped(m, t)
    && ChainValid(m, t.db.events)
    && (forall c | 0 <= c < |m.cells| ::
          && t.db.rows[c].state == StateAfter(m, t.db.events, c)
          && t.db.rows[c].actual == ChargedCost(t.db.events, t.marks, c))
    && (forall i | 0 <= i < |t.marks| :: AmountLogged(t.db.events[i].columns, t.marks[i]))
  }

  /** The log holds the rounded charge; only a completion charges. */
  ghost predicate AmountLogged(e: Payload, k: Mark) {
    && e.actual == Money.Round8(k.charge)
    && k.charge >= 0.0
    && (e.previous.Leased? && e.next.Leased? ==> k.charge == 0.0)
  }

  /** The new event is linked to the log before it. */
  lemma StepLinked(m: Manifest, t: Trace, a: Action)
    requires LogAgrees(m, t) && Enabled(m, t.db, a)
    ensures ChainValid(m, Extend(m, t, a).db.events)
  {
    hide Refused, TokenSeen, Money.Round8, Text.Blank;
    var e := EventFor(m, t.db.events, DraftFor(m, t.db, a));
    ChainSnoc(m, t.db.events, e);
    assert (t.db.events + [e])[..|t.db.events|] == t.db.events;
    assert Linked(m, Extend(m, t, a).db.events, |t.db.events|);
  }

  /** Every row still shows the replayed state and the sum of the charges. */
  lemma StepRowsAgree(m: Manifest, t: Trace, a: Action)
    requires LogAgrees(m, t) && Enabled(m, t.db, a)
    ensures var t' := Extend(m, t, a);
      Shaped(m, t') && forall c | 0 <= c < |m.cells| ::
        && t'.db.rows[c].state == StateAfter(m, t'.db.events, c)
        && t'.db.rows[c].actual == ChargedCost(t'.db.events, t'.marks, c)
  {
    hide Refused, TokenSeen, Money.Round8, Text.Blank, ChainValid;
    var e := EventFor(m, t.db.events, DraftFor(m, t.db, a));
    var t' := Extend(m, t, a);
    forall c | 0 <= c < |m.cells|
      ensures t'.db.rows[c].state == StateAfter(m, t'.db.events, c)
      ensures t'.db.rows[c].actual == ChargedCost(t'.db.events, t'.marks, c)
    {
      LogSnoc(m, t.db.events, t.marks, e, MarkOf(a), c);
    }
  }

  lemma StepAmounts(m: Manifest, t: Trace, a: Action)
    requires LogAgrees(m, t) && Enabled(m, t.db, a)
    ensures var t' := Extend(m, t, a);
      forall i | 0 <= i < |t'.marks| :: AmountLogged(t'.db.events[i].columns, t'.marks[i])
  {
    hide Refused, TokenSeen, Text.Blank, ChainValid;
    Money.Round8Units(0);
  }

  lemma StepLogAgrees(m: Manifest, t: Trace, a: Action)
    requires LogAgrees(m, t) && Enabled(m, t.db, a)
    ensures LogAgrees(m, Extend(m, t, a))
  {
    hide Extend, Enabled, ChainValid, AmountLogged;
    StepLinked(m, t, a);
    StepRowsAgree(m, t, a);
    StepAmounts(m, t, a);
  }

  // ---------------------------------------------------------------- lease fields

  predicate HasLease(row: Row) {
    row.owner.Some? && row.token.Some? && row.leasedAt.Some? && row.expires.Some?
  }

  predicate NoLease(row: Row) {
    row.owner.None? && row.token.None? && row.leasedAt.None? && row.expires.None?
  }

  /** Lease fields are set exactly on leased cells, and on cells requeued out of a live lease. */
  ghost predicate LeaseFields(m: Manifest, t: Trace) {
    Shaped(m, t) &&
    forall c | 0 <= c < |m.cells| ::
      var row := t.db.rows[c];
      && (HasLease(row) || NoLease(row))
      && (HasLease(row) <==> row.state.Leased? || Dangling(t.db.events, c))
      && (row.state.Leased? ==> m.cells[c].estimate.Some? && m.cells[c].estimate.value >= 0.0)
  }

  lemma StepLeaseFields(m: Manifest, t: Trace, a: Action)
    requires LogAgrees(m, t) && LeaseFields(m, t) && Enabled(m, t.db, a)
    ensures LeaseFields(m, Extend(m, t, a))
  {
    var e := EventFor(m, t.db.events, DraftFor(m, t.db, a));
    var t' := Extend(m, t, a);
    forall c | 0 <= c < |m.cells|
      ensures var row := t'.db.rows[c];
        && (HasLease(row) || NoLease(row))
        && (HasLease(row) <==> row.state.Leased? || Dangling(t'.db.events, c))
        && (row.state.Leased? ==> m.cells[c].estimate.Some? && m.cells[c].estimate.value >= 0.0)
    {
      LogSnoc(m, t.db.events, t.marks, e, MarkOf(a), c);
      DanglingIsReady(m, t.db.events, c);
    }
  }

  // ---------------------------------------------------------------- fencing tokens

  /** What two events, the first logged earlier, must satisfy if they share a token or an attempt. */
  ghost predicate FencedPair(x: Payload, y: Payload) {
    && (x.token.Some? && x.token == y.token ==>
          x.cell == y.cell && x.attempt == y.attempt && x.next.Leased? && y.previous.Leased?)
    && (x.token.Some? && y.token.Some? && x.cell == y.cell && x.attempt == y.attempt ==> x.token == y.token)
  }

  /** One token, one attempt; and only the last event carrying a token may close its lease. */
  ghost predicate Fenced(events: seq<Event>) {
    forall i, j | 0 <= i < j < |events| :: FencedPair(events[i].columns, events[j].columns)
  }

  /** Every logged event belongs to an attempt already counted. */
  ghost predicate Counted(db: Db) {
    forall i | 0 <= i < |db.events| :: CountedIn(db.rows, db.events[i].columns)
  }

  ghost predicate CountedIn(rows: seq<Row>, e: Payload) {
    e.cell < |rows| && e.attempt <= rows[e.cell].attempts
  }

  /** The tokenised events of a live lease are exactly those of its row's current attempt. */
  ghost predicate Current(row: Row, c: CellId, e: Payload) {
    e.token.Some? ==>
      && (e.token == row.token ==> e.cell == c && e.attempt == row.attempts && e.next.Leased?)
      && (e.cell == c && e.attempt == row.attempts ==> e.token == row.token)
  }

  ghost predicate LiveTokens(db: Db) {
    && Counted(db)
    && (forall c, i | 0 <= c < |db.rows| && db.rows[c].state.Leased? && 0 <= i < |db.events| ::
          Current(db.rows[c], c, db.events[i].columns))
    && (forall c, c' | 0 <= c < c' < |db.rows| && db.rows[c].state.Leased? && db.rows[c'].state.Leased? ::
          db.rows[c].token != db.rows[c'].token)
  }

  /** The new event, next to the events already logged. */
  lemma StepFenced(m: Manifest, t: Trace, a: Action)
    requires Fenced(t.db.events) && LiveTokens(t.db) && LeaseFields(m, t) && Enabled(m, t.db, a)
    ensures Fenced(Extend(m, t, a).db.events)
  {
    var db := t.db;
    var e := EventFor(m, db.events, DraftFor(m, db, a)).columns;
    var row := db.rows[a.cell];
    forall i | 0 <= i < |db.events| ensures FencedPair(db.events[i].columns, e) {
      assert CountedIn(db.rows, db.events[i].columns);
      if a.Issue? {
        assert db.events[i].columns.token != Some(a.token);
      } else if row.state.Leased? {
        assert Current(row, a.cell, db.events[i].columns);
      }
    }
    var all := Extend(m, t, a).db.events;
    forall i, j | 0 <= i < j < |all| ensures FencedPair(all[i].columns, all[j].columns) {
      assert all[i] == db.events[i];
      if j < |db.events| {
        assert all[j] == db.events[j];
      }
    }
  }

  lemma StepLiveTokens(m: Manifest, t: Trace, a: Action)
    requires LiveTokens(t.db) && LeaseFields(m, t) && Enabled(m, t.db, a)
    ensures LiveTokens(Extend(m, t, a).db)
  {
    hide Refused, Text.Blank, Money.Round8;
    var db := t.db;
    var db' := Do(m, db, a);
    var n := |db.events|;
    forall i | 0 <= i <= n ensures CountedIn(db'.rows, db'.events[i].columns) {
      assert i < n ==> CountedIn(db.rows, db.events[i].columns);
    }
    forall c | 0 <= c < |db.rows| && c != a.cell && db.rows[c].state.Leased?
      ensures db'.rows[a.cell].state.Leased? ==> db.rows[c].token != db'.rows[a.cell].token
      ensures db'.events[n].columns.token.Some? ==> db'.events[n].columns.token != db.rows[c].token
    {
      if a.Issue? {
        assert db.rows[c].token != Some(a.token);
      }
    }
    forall c, i | 0 <= c < |db.rows| && db'.rows[c].state.Leased? && 0 <= i <= n
      ensures Current(db'.rows[c], c, db'.events[i].columns)
    {
      if i < n {
        assert db'.events[i] == db.events[i];
        assert CountedIn(db.rows, db.events[i].columns);
        if a.Issue? && c == a.cell {
          assert db.events[i].columns.token != Some(a.token);
        } else {
          assert Current(db.rows[c], c, db.events[i].columns);
        }
      }
    }
  }

  // ---------------------------------------------------------------- expiry of a live lease

  /** The expiry of a live lease is the latest of the expiries asked for under its token. */
  ghost predicate Horizons(m: Manifest, t: Trace) {
    Shaped(m, t) &&
    forall c | 0 <= c < |m.cells| && t.db.rows[c].state.Leased? :: LatestHorizon(t, c)
  }

  ghost predicate LatestHorizon(t: Trace, c: CellId)
    requires c < |t.db.rows| && |t.marks| == |t.db.events|
  {
    var row := t.db.rows[c];
    && row.expires.Some?
    && (exists i | 0 <= i < |t.marks| ::
          t.db.events[i].columns.token == row.token && t.marks[i].horizon == row.expires.value)
    && (forall i | 0 <= i < |t.marks| && t.db.events[i].columns.token == row.token ::
          t.marks[i].horizon <= row.expires.value)
  }

  lemma StepHorizons(m: Manifest, t: Trace, a: Action)
    requires Horizons(m, t) && LiveTokens(t.db) && LeaseFields(m, t) && Enabled(m, t.db, a)
    ensures Horizons(m, Extend(m, t, a))
  {
    var t' := Extend(m, t, a);
    forall c | 0 <= c < |m.cells| && t'.db.rows[c].state.Leased? ensures LatestHorizon(t', c) {
      if c == a.cell {
        OwnHorizon(m, t, a);
      } else {
        OtherHorizon(m, t, a, c);
      }
    }
  }

  lemma OtherHorizon(m: Manifest, t: Trace, a: Action, c: CellId)
    requires Shaped(m, t) && LeaseFields(m, t) && LiveTokens(t.db) && Enabled(m, t.db, a)
    requires c < |m.cells| && c != a.cell && t.db.rows[c].state.Leased? && LatestHorizon(t, c)
    ensures LatestHorizon(Extend(m, t, a), c)
  {
    hide Counted, Refused, RowFor;
    var t' := Extend(m, t, a);
    var n := |t.marks|;
    OtherToken(m, t, a, c);
    assert t'.db.rows[c] == t.db.rows[c];
    var i :| 0 <= i < n && t.db.events[i].columns.token == t.db.rows[c].token
             && t.marks[i].horizon == t.db.rows[c].expires.value;
    assert t'.db.events[i] == t.db.events[i] && t'.marks[i] == t.marks[i];
  }

  /** An action logs no other live lease's token. */
  lemma OtherToken(m: Manifest, t: Trace, a: Action, c: CellId)
    requires Shaped(m, t) && LeaseFields(m, t) && LiveTokens(t.db) && Enabled(m, t.db, a)
    requires c < |m.cells| && c != a.cell && t.db.rows[c].state.Leased?
    ensures DraftFor(m, t.db, a).token != t.db.rows[c].token
  {
    hide Counted, Refused;
    assert HasLease(t.db.rows[c]);
    if a.Issue? {
      assert t.db.rows[c].token != Some(a.token);
    }
  }

  lemma OwnHorizon(m: Manifest, t: Trace, a: Action)
    requires Shaped(m, t) && Enabled(m, t.db, a) && Extend(m, t, a).db.rows[a.cell].state.Leased?
    requires t.db.rows[a.cell].state.Leased? ==> LatestHorizon(t, a.cell)
    ensures LatestHorizon(Extend(m, t, a), a.cell)
  {
    var t' := Extend(m, t, a);
    var n := |t.marks|;
    var row, row' := t.db.rows[a.cell], t'.db.rows[a.cell];
    assert t'.db.events[n].columns.token == row'.token && t'.marks[n].horizon == a.at + a.seconds;
    if a.Issue? {
      forall i | 0 <= i < n ensures t'.db.events[i].columns.token != row'.token {
        assert t'.db.events[i] == t.db.events[i];
      }
    } else {
      var i :| 0 <= i < n && t.db.events[i].columns.token == row.token && t.marks[i].horizon == row.expires.value;
      assert t'.db.events[i] == t.db.events[i] && t'.marks[i] == t.marks[i];
    }
  }

  // ---------------------------------------------------------------- budget and caps

  /** The amounts by which charges exceeded the estimates that had been reserved for them. */
  function Overrun(m: Manifest, events: seq<Event>, marks: seq<Mark>): real
    requires |events| == |marks|
  {
    if events == [] then 0.0
    else
      var n := |events| - 1;
      Overrun(m, events[..n], marks[..n])
        + MaxReal(0.0, marks[n].charge - EstimateOrZero(m, events[n].columns.cell))
  }

  lemma {:induction false} OverrunNonNegative(m: Manifest, events: seq<Event>, marks: seq<Mark>)
    requires |events| == |marks|
    ensures Overrun(m, events, marks) >= 0.0
  {
    if events != [] {
      OverrunNonNegative(m, events[..|events| - 1], marks[..|marks| - 1]);
    }
  }

  ghost predicate WithinBudget(m: Manifest, t: Trace) {
    Shaped(m, t) &&
    (m.hardBudget.Some? ==>
      Spent(t.db.rows) + Reserved(m, t.db.rows) <= m.hardBudget.value + Overrun(m, t.db.events, t.marks))
  }

  ghost predicate WithinCaps(m: Manifest, db: Db) {
    Fits(m, db) &&
    forall model :: Active(m, db.rows, model) <= (if m.maxParallelPerModel < 0 then 0 else m.maxParallelPerModel)
  }

  /** How one row update moves the totals. */
  lemma TotalsAfter(m: Manifest, rows: seq<Row>, c: CellId, row: Row)
    requires |rows| == |m.cells| && c < |rows|
    ensures Spent(rows[c := row]) == Spent(rows) - rows[c].actual + row.actual
    ensures Reserved(m, rows[c := row]) == Reserved(m, rows)
         - (if rows[c].state.Leased? then EstimateOrZero(m, c) else 0.0)
         + (if row.state.Leased? then EstimateOrZero(m, c) else 0.0)
  {
    var e := EstimateOrZero(m, c);
    assert Actuals(rows[c := row]) == Actuals(rows)[c := row.actual];
    SumUpdate(Actuals(rows), c, row.actual);
    assert Reservations(m, rows[c := row]) == Reservations(m, rows)[c := if row.state.Leased? then e else 0.0];
    SumUpdate(Reservations(m, rows), c, if row.state.Leased? then e else 0.0);
  }

  lemma ActiveAfter(m: Manifest, rows: seq<Row>, c: CellId, row: Row, model: string)
    requires |rows| == |m.cells| && c < |rows|
    ensures Active(m, rows[c := row], model) == Active(m, rows, model)
         - (if rows[c].state.Leased? && m.cells[c].model == model then 1 else 0)
         + (if row.state.Leased? && m.cells[c].model == model then 1 else 0)
  {
    var flag := row.state.Leased? && m.cells[c].model == model;
    assert ActiveFlags(m, rows[c := row], model) == ActiveFlags(m, rows, model)[c := flag];
    CountUpdate(ActiveFlags(m, rows, model), c, flag);
  }

  lemma StepBudget(m: Manifest, t: Trace, a: Action)
    requires WithinBudget(m, t) && LeaseFields(m, t) && Enabled(m, t.db, a)
    ensures WithinBudget(m, Extend(m, t, a))
  {
    var e := EventFor(m, t.db.events, DraftFor(m, t.db, a));
    TotalsAfter(m, t.db.rows, a.cell, RowFor(t.db, a));
    assert (t.db.events + [e])[..|t.db.events|] == t.db.events;
    assert (t.marks + [MarkOf(a)])[..|t.marks|] == t.marks;
    assert Objection(DraftFor(m, t.db, a)).None?;
    OverrunNonNegative(m, t.db.events, t.marks);
  }

  lemma StepCaps(m: Manifest, t: Trace, a: Action)
    requires WithinCaps(m, t.db) && Enabled(m, t.db, a)
    ensures WithinCaps(m, Extend(m, t, a).db)
  {
    forall model
      ensures Active(m, Extend(m, t, a).db.rows, model)
           <= (if m.maxParallelPerModel < 0 then 0 else m.maxParallelPerModel)
    {
      ActiveAfter(m, t.db.rows, a.cell, RowFor(t.db, a), model);
    }
  }

  // ---------------------------------------------------------------- every run

  ghost predicate Inv(m: Manifest, t: Trace) {
    && LogAgrees(m, t)
    && LeaseFields(m, t)
    && Fenced(t.db.events)
    && LiveTokens(t.db)
    && Horizons(m, t)
    && WithinCaps(m, t.db)
  }

  lemma StepInv(m: Manifest, t: Trace, a: Action)
    requires Inv(m, t) && Enabled(m, t.db, a)
    ensures Inv(m, Extend(m, t, a))
    ensures WithinBudget(m, t) ==> WithinBudget(m, Extend(m, t, a))
  {
    StepLogAgrees(m, t, a);
    StepLeaseFields(m, t, a);
    StepFenced(m, t, a);
    StepLiveTokens(m, t, a);
    StepHorizons(m, t, a);
    StepCaps(m, t, a);
    if WithinBudget(m, t) {
      StepBudget(m, t, a);
    }
  }

  lemma {:induction false} AllZero(s: seq<real>)
    requires forall i | 0 <= i < |s| :: s[i] == 0.0
    ensures Sum(s) == 0.0
  {
    if s != [] {
      AllZero(s[..|s| - 1]);
    }
  }

  lemma {:induction false} AllFalse(s: seq<bool>)
    requires forall i | 0 <= i < |s| :: !s[i]
    ensures Count(s) == 0
  {
    if s != [] {
      AllFalse(s[..|s| - 1]);
    }
  }

  lemma StartInv(m: Manifest, createdAt: int)
    requires NothingLeased(m)
    ensures Inv(m, Start(m, createdAt))
    ensures m.hardBudget.Some? && m.hardBudget.value >= 0.0 ==> WithinBudget(m, Start(m, createdAt))
  {
    var rows := InitialDb(m, createdAt).rows;
    AllZero(Actuals(rows));
    AllZero(Reservations(m, rows));
    forall model ensures Active(m, rows, model) == 0 {
      AllFalse(ActiveFlags(m, rows, model));
    }
  }

  lemma {:induction false} ExtendAllInv(m: Manifest, t: Trace, actions: seq<Action>)
    requires Inv(m, t) && EnabledAll(m, t.db, actions)
    ensures Inv(m, ExtendAll(m, t, actions))
    ensures WithinBudget(m, t) ==> WithinBudget(m, ExtendAll(m, t, actions))
  {
    hide Inv, WithinBudget, Enabled, DoAll, Do, Extend;
    if actions != [] {
      var n := |actions| - 1;
      forall i | 0 <= i < n ensures Enabled(m, DoAll(m, t.db, actions[..n][..i]), actions[..n][i]) {
        assert actions[..n][..i] == actions[..i];
        assert Enabled(m, DoAll(m, t.db, actions[..i]), actions[i]);
      }
      ExtendAllInv(m, t, actions[..n]);
      StepInv(m, ExtendAll(m, t, actions[..n]), actions[n]);
    }
  }

  lemma CallInv(m: Manifest, t: Trace, call: Call)
    requires Inv(m, t)
    ensures Inv(m, After(m, t, call))
    ensures WithinBudget(m, t) ==> WithinBudget(m, After(m, t, call))
  {
    PlanEnabled(m, t.db, call);
    var r := Plan(m, t.db, call);
    if r.Ok? {
      ExtendAllInv(m, t, r.value);
    }
  }

  /** Every invariant holds after every run of calls, whoever makes them and whenever. */
  lemma {:induction false} RunInv(m: Manifest, createdAt: int, calls: seq<Call>)
    requires NothingLeased(m)
    ensures Inv(m, Run(m, createdAt, calls))
    ensures m.hardBudget.Some? && m.hardBudget.value >= 0.0 ==> WithinBudget(m, Run(m, createdAt, calls))
  {
    if calls == [] {
      StartInv(m, createdAt);
    } else {
      RunInv(m, createdAt, calls[..|calls| - 1]);
      CallInv(m, Run(m, createdAt, calls[..|calls| - 1]), calls[|calls| - 1]);
    }
  }
}
