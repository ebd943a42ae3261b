/** The table as a projection of the log: which columns the events determine, after every run. */
module StoreRows {
  import opened Prelude
  import opened Campaign
  import opened Store
  import opened StoreRuns
  import opened StoreSafety
  import Money
  import Text

  /** The last event of a cell. */
  function LastOf(events: seq<Event>, c: CellId): Option<Payload> {
    if events == [] then None
    else
      var last := events[|events| - 1].columns;
      if last.cell == c then Some(last) else LastOf(events[..|events| - 1], c)
  }

  predicate IsIssue(e: Payload, c: CellId) {
    e.cell == c && e.previous.Ready? && e.next.Leased?
  }

  /** The event that issued the cell's latest lease. */
  function LastIssue(events: seq<Event>, c: CellId): Option<Payload> {
    if events == [] then None
    else
      var last := events[|events| - 1].columns;
      if IsIssue(last, c) then Some(last) else LastIssue(events[..|events| - 1], c)
  }

  /** How often the cell has been leased. */
  function Issues(events: seq<Event>, c: CellId): nat {
    if events == [] then 0
    else Issues(events[..|events| - 1], c) + (if IsIssue(events[|events| - 1].columns, c) then 1 else 0)
  }

  predicate Nonempty(artifact: Option<string>) {
    artifact.Some? && artifact.value != ""
  }

  /** What the log says about one row. */
  ghost predicate RowLogged(m: Manifest, createdAt: int, events: seq<Event>, row: Row, c: CellId)
    requires c < |m.cells|
  {
    && row.attempts == Issues(events, c)
    && (match LastOf(events, c)
        case None => row == InitialRow(m.cells[c], createdAt)
        case Some(e) =>
          && row.state == e.next && row.reason == Some(e.reason) && row.updated == e.at
          && (Terminal(row.state) ==> row.artifact == e.artifact)
          && (row.state in {Succeeded, Quarantined} ==> Nonempty(row.artifact)))
    && (row.state.Leased? ==>
          LastIssue(events, c).Some? &&
          var issue := LastIssue(events, c).value;
          row.owner == issue.worker && row.token == issue.token && row.leasedAt == Some(issue.at)
            && row.attempts == issue.attempt)
  }

  ghost predicate RowsLogged(m: Manifest, createdAt: int, db: Db) {
    Fits(m, db) && forall c | 0 <= c < |m.cells| :: RowLogged(m, createdAt, db.events, db.rows[c], c)
  }

  lemma LastSnoc(events: seq<Event>, e: Event, c: CellId)
    ensures LastOf(events + [e], c) == if e.columns.cell == c then Some(e.columns) else LastOf(events, c)
    ensures LastIssue(events + [e], c) == if IsIssue(e.columns, c) then Some(e.columns) else LastIssue(events, c)
    ensures Issues(events + [e], c) == Issues(events, c) + (if IsIssue(e.columns, c) then 1 else 0)
  {
    assert (events + [e])[..|events|] == events;
  }

  lemma StepRows(m: Manifest, createdAt: int, db: Db, a: Action)
    requires RowsLogged(m, createdAt, db) && Enabled(m, db, a)
    ensures RowsLogged(m, createdAt, Do(m, db, a))
  {
    hide Refused, TokenSeen, Money.Round8, Text.Blank;
    var e := EventFor(m, db.events, DraftFor(m, db, a));
    var db' := Do(m, db, a);
    forall c | 0 <= c < |m.cells| ensures RowLogged(m, createdAt, db'.events, db'.rows[c], c) {
      LastSnoc(db.events, e, c);
      assert RowLogged(m, createdAt, db.events, db.rows[c], c);
    }
  }

  lemma {:induction false} AllRows(m: Manifest, createdAt: int, db: Db, actions: seq<Action>)
    requires RowsLogged(m, createdAt, db) && EnabledAll(m, db, actions)
    ensures RowsLogged(m, createdAt, DoAll(m, db, actions))
  {
    hide RowsLogged, Enabled, Do;
    if actions != [] {
      var n := |actions| - 1;
      EnabledPrefix(m, db, actions, n);
      AllRows(m, createdAt, db, actions[..n]);
      StepRows(m, createdAt, DoAll(m, db, actions[..n]), actions[n]);
    }
  }

  lemma StartRows(m: Manifest, createdAt: int)
    requires NothingLeased(m)
    ensures RowsLogged(m, createdAt, InitialDb(m, createdAt))
  {
  }

  /**
   * After every run the log determines each row's state, reason, time, attempt count, the owner,
   * token and start of a live lease, and the artifact of a finished cell; and a cell that has been
   * brought to succeeded or quarantined names one.
   */
  lemma {:induction false} TableFollowsLog(m: Manifest, createdAt: int, calls: seq<Call>)
    requires NothingLeased(m)
    ensures RowsLogged(m, createdAt, Run(m, createdAt, calls).db)
  {
    hide RowsLogged, Plan, EnabledAll;
    if calls == [] {
      StartRows(m, createdAt);
    } else {
      var n := |calls| - 1;
      TableFollowsLog(m, createdAt, calls[..n]);
      var db := Run(m, createdAt, calls[..n]).db;
      PlanEnabled(m, db, calls[n]);
      if Plan(m, db, calls[n]).Ok? {
        AllRows(m, createdAt, db, Plan(m, db, calls[n]).value);
      }
    }
  }
}
