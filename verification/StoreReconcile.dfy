/** The reconciler's verdict on an arbitrary table and log. */
module StoreReconcile {
  import opened Prelude
  import opened Campaign
  import opened Store
  import opened StoreLog
  import opened StoreInvariants
  import opened StoreCalls
  import Money

  /** How many events the replay accepts before it stops. */
  function Accepted(m: Manifest, events: seq<Event>): (k: nat)
    ensures k <= |events|
  {
    if events == [] then 0
    else
      var n := |events| - 1;
      var k := Accepted(m, events[..n]);
      if k == n && Linked(m, events, n) then n + 1 else k
  }

  lemma {:induction false} AcceptedFacts(m: Manifest, events: seq<Event>)
    ensures var k := Accepted(m, events);
      && ChainValid(m, events[..k])
      && (k < |events| ==> !Linked(m, events, k))
      && (k == |events| <==> ChainValid(m, events))
  {
    if events != [] {
      var n := |events| - 1;
      AcceptedFacts(m, events[..n]);
      assert events == events[..n] + [events[n]];
      ChainSnoc(m, events[..n], events[n]);
      var k := Accepted(m, events[..n]);
      assert events[..n][..k] == events[..k];
      if k < n {
        assert Linked(m, events[..n], k) <==> Linked(m, events, k);
      }
    }
    assert events[..|events|] == events;
  }

  lemma {:induction false} AcceptedPrefix(m: Manifest, events: seq<Event>, k: nat)
    requires k <= |events| && ChainValid(m, events[..k])
    requires k < |events| ==> !Linked(m, events, k)
    ensures Accepted(m, events) == k
  {
    if events != [] {
      var n := |events| - 1;
      AcceptedFacts(m, events);
      if k == |events| {
        assert events[..k] == events;
      } else if k == n {
        AcceptedFacts(m, events[..n]);
      } else {
        assert events[..n][..k] == events[..k];
        AcceptedPrefix(m, events[..n], k);
      }
    }
  }

  lemma ChainPrefixSnoc(m: Manifest, events: seq<Event>, k: nat)
    requires k < |events| && ChainValid(m, events[..k]) && Linked(m, events, k)
    ensures ChainValid(m, events[..k + 1])
  {
    assert events[..k + 1] == events[..k] + [events[k]];
    ChainSnoc(m, events[..k], events[k]);
    assert events[..k + 1][..k] == events[..k];
  }

  /** All four lease fields on a leased cell, none on any other. */
  predicate LeaseFieldsSound(row: Row) {
    if row.state.Leased? then HasLease(row) else NoLease(row)
  }

  function AcceptedEvents(m: Manifest, db: Db): seq<Event> {
    db.events[..Accepted(m, db.events)]
  }

  /** The replayed cost of every cell. */
  function ReplayedCosts(m: Manifest, db: Db): seq<real> {
    seq(|m.cells|, c requires 0 <= c < |m.cells| => LoggedCost(AcceptedEvents(m, db), c))
  }

  ghost predicate StatesReplayed(m: Manifest, db: Db) {
    && |db.rows| == |m.cells|
    && forall c | 0 <= c < |db.rows| :: db.rows[c].state == StateAfter(m, AcceptedEvents(m, db), c)
  }

  ghost predicate CostsReplayed(m: Manifest, db: Db) {
    forall c | 0 <= c < |db.rows| && c < |m.cells| ::
      AbsReal(db.rows[c].actual - LoggedCost(AcceptedEvents(m, db), c)) <= Money.UNIT
  }

  ghost predicate LeasesSound(m: Manifest, db: Db) {
    forall c | 0 <= c < |db.rows| && c < |m.cells| :: LeaseFieldsSound(db.rows[c])
  }

  /** The store reconciles: chain, states, costs and lease fields. */
  ghost predicate Reconciled(m: Manifest, db: Db) {
    ChainValid(m, db.events) && StatesReplayed(m, db) && CostsReplayed(m, db) && LeasesSound(m, db)
  }

  lemma WholeLogAccepted(m: Manifest, db: Db)
    requires ChainValid(m, db.events)
    ensures AcceptedEvents(m, db) == db.events
  {
    AcceptedFacts(m, db.events);
    assert db.events[..|db.events|] == db.events;
  }

  /** The reconciler never looks at the artifact column: whatever it holds, the verdict is the same. */
  lemma ArtifactsUnchecked(m: Manifest, db: Db, c: CellId, artifact: Option<string>)
    requires c < |db.rows|
    ensures Reconciled(m, db.(rows := db.rows[c := db.rows[c].(artifact := artifact)])) <==> Reconciled(m, db)
  {
    var row := db.rows[c].(artifact := artifact);
    var db' := db.(rows := db.rows[c := row]);
    if Reconciled(m, db) {
      SameVerdict(m, db, db');
    }
    if Reconciled(m, db') {
      SameVerdict(m, db', db);
    }
  }

  /** The verdict reads state, cost and lease columns only. */
  lemma SameVerdict(m: Manifest, db: Db, db': Db)
    requires db.events == db'.events && |db.rows| == |db'.rows| && Reconciled(m, db)
    requires forall c | 0 <= c < |db.rows| :: SameExceptArtifact(db.rows[c], db'.rows[c])
    ensures Reconciled(m, db')
  {
    forall c | 0 <= c < |db'.rows| && c < |m.cells| ensures LeaseFieldsSound(db'.rows[c]) {
      assert LeaseFieldsSound(db.rows[c]) && SameExceptArtifact(db.rows[c], db'.rows[c]);
    }
    forall c | 0 <= c < |db'.rows| && c < |m.cells|
      ensures AbsReal(db'.rows[c].actual - LoggedCost(AcceptedEvents(m, db'), c)) <= Money.UNIT
    {
      assert SameExceptArtifact(db.rows[c], db'.rows[c]);
      assert AbsReal(db.rows[c].actual - LoggedCost(AcceptedEvents(m, db), c)) <= Money.UNIT;
    }
  }

  predicate SameExceptArtifact(row: Row, row': Row) {
    row' == row.(artifact := row'.artifact)
  }

  // ---------------------------------------------------------------- the verdict, check by check

  /** The replay's checks on one event row, spelled out. */
  predicate EventSound(m: Manifest, events: seq<Event>, i: int) {
    0 <= i < |events| &&
    var e := events[i];
    && e.columns.sequence == i
    && e.columns.parent == (if i == 0 then None else Some(events[i - 1].hash))
    && e.stored == e.columns && e.hash == ContentHash(e.columns)
    && e.columns.cell < |m.cells|
    && e.columns.previous == StateAfter(m, events[..i], e.columns.cell)
    && (e.columns.previous, e.columns.next) in CHANGES
  }

  predicate RowSound(m: Manifest, db: Db, c: CellId) {
    c < |db.rows| && c < |m.cells| &&
    var row, gap := db.rows[c], db.rows[c].actual - LoggedCost(db.events, c);
    && row.state == StateAfter(m, db.events, c)
    && -0.00000001 <= gap <= 0.00000001
    && (row.state == Leased ==> row.owner != None && row.token != None && row.leasedAt != None && row.expires != None)
    && (row.state != Leased ==> row.owner == None && row.token == None && row.leasedAt == None && row.expires == None)
  }

  /** The store reconciles exactly when its cells are the manifest's, and every event row and cell row is sound. */
  lemma ReconciledMeans(m: Manifest, db: Db)
    ensures Reconciled(m, db) <==>
      && (forall i | 0 <= i < |db.events| :: EventSound(m, db.events, i))
      && |db.rows| == |m.cells|
      && forall c | 0 <= c < |m.cells| :: RowSound(m, db, c)
  {
    forall i | 0 <= i < |db.events| ensures Linked(m, db.events, i) <==> EventSound(m, db.events, i) {
      LinkMeans(m, db.events, i);
    }
    if ChainValid(m, db.events) {
      WholeLogAccepted(m, db);
      if |db.rows| == |m.cells| {
        RowsMean(m, db);
      }
    }
  }

  lemma LinkMeans(m: Manifest, events: seq<Event>, i: nat)
    requires i < |events|
    ensures Linked(m, events, i) <==> EventSound(m, events, i)
  {
    hide StateAfter;
    ChangesAllowed(events[i].columns.previous, events[i].columns.next);
    assert i > 0 ==> events[..i][|events[..i]| - 1] == events[i - 1];
  }

  lemma RowsMean(m: Manifest, db: Db)
    requires AcceptedEvents(m, db) == db.events && |db.rows| == |m.cells|
    ensures StatesReplayed(m, db) && CostsReplayed(m, db) && LeasesSound(m, db) <==>
      forall c | 0 <= c < |m.cells| :: RowSound(m, db, c)
  {
    hide StateAfter, LoggedCost, AcceptedEvents;
    if forall c | 0 <= c < |m.cells| :: RowSound(m, db, c) {
      forall c | 0 <= c < |m.cells|
        ensures db.rows[c].state == StateAfter(m, AcceptedEvents(m, db), c)
        ensures AbsReal(db.rows[c].actual - LoggedCost(AcceptedEvents(m, db), c)) <= Money.UNIT
        ensures LeaseFieldsSound(db.rows[c])
      {
        assert RowSound(m, db, c);
      }
    }
    if StatesReplayed(m, db) && CostsReplayed(m, db) && LeasesSound(m, db) {
      forall c | 0 <= c < |m.cells| ensures RowSound(m, db, c) {
        assert LeaseFieldsSound(db.rows[c]);
        assert AbsReal(db.rows[c].actual - LoggedCost(AcceptedEvents(m, db), c)) <= Money.UNIT;
      }
    }
  }
}
