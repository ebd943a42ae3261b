/**
 * What each call of the store does, column by column: when it is accepted, and the row and the
 * event it then leaves. Nothing here is stated through the plan of changes that the other modules
 * reason about; the lemmas say that the two agree.
 */
module StoreCalls {
  import opened Prelude
  import opened Campaign
  import opened Store
  import Money
  import Text

  // ---------------------------------------------------------------- shared vocabulary

  /** The legal changes of state, one by one. */
  const CHANGES := {
    (Ready, Leased), (Ready, Cancelled),
    (Leased, Leased), (Leased, Ready),
    (Leased, Succeeded), (Leased, Failed), (Leased, Quarantined), (Leased, Cancelled),
    (Failed, Ready)}

  lemma ChangesAllowed(previous: CellState, next: CellState)
    ensures Allowed(previous, next) <==> (previous, next) in CHANGES
  {
  }

  predicate NotNegative(estimate: Option<real>) {
    estimate.Some? ==> estimate.value >= 0.0
  }

  function Price(cell: Cell): real {
    match cell.estimate
    case Some(x) => x
    case None => 0.0
  }

  function Later(a: int, b: int): int {
    if a < b then b else a
  }

  /** The caller holds the row's lease, and it has not expired. */
  predicate Holds(row: Row, worker: string, token: string, at: int) {
    && row.state == Leased
    && row.owner == Some(worker) && row.token == Some(token)
    && row.expires.Some? && at < row.expires.value
  }

  /** The log with one more row, its columns spelled out. */
  function Appended(m: Manifest, events: seq<Event>, cell: CellId, previous: CellState, next: CellState, at: int,
                    worker: Option<string>, token: Option<string>, attempt: nat, reason: string, estimate: real,
                    actual: real, artifact: Option<string>): seq<Event>
  {
    var parent := if events == [] then None else Some(events[|events| - 1].hash);
    var p := Payload(|events|, m.id, cell, previous, next, at, worker, token, attempt, reason,
                     Money.Round8(estimate), Money.Round8(actual), artifact, parent);
    events + [Event(p, p, ContentHash(p))]
  }

  // ---------------------------------------------------------------- completion

  predicate Completable(m: Manifest, db: Db, c: CellId, worker: string, token: string, next: CellState,
                        reason: string, actual: real, artifact: Option<string>, at: int)
  {
    && c < |db.rows| && c < |m.cells|
    && Holds(db.rows[c], worker, token, at)
    && next in {Ready, Succeeded, Failed, Quarantined, Cancelled}
    && actual >= 0.0 && NotNegative(m.cells[c].estimate)
    && Text.HasText(reason)
    && (next in {Succeeded, Quarantined} ==> artifact.Some? && artifact.value != "")
  }

  function Completed(m: Manifest, db: Db, c: CellId, worker: string, token: string, next: CellState,
                     reason: string, actual: real, artifact: Option<string>, at: int): Db
    requires Completable(m, db, c, worker, token, next, reason, actual, artifact, at)
  {
    var row := db.rows[c];
    Db(db.rows[c := Row(next, row.actual + actual, row.attempts, None, None, None, None, artifact, Some(reason), at)],
       Appended(m, db.events, c, Leased, next, at, Some(worker), Some(token), row.attempts, reason,
                Price(m.cells[c]), actual, artifact))
  }

  /** A completion is accepted exactly by the owner of a live lease, and then has exactly these effects. */
  lemma CompleteMeans(m: Manifest, db: Db, c: CellId, worker: string, token: string, next: CellState,
                      reason: string, actual: real, artifact: Option<string>, at: int)
    requires Fits(m, db)
    ensures var call := Complete(c, worker, token, next, reason, actual, artifact, at);
      var accepted := Completable(m, db, c, worker, token, next, reason, actual, artifact, at);
      && (Plan(m, db, call).Ok? <==> accepted)
      && Step(m, db, call) ==
           if accepted then Completed(m, db, c, worker, token, next, reason, actual, artifact, at) else db
  {
    hide Text.Blank, Text.HasText, Money.Round8;
    var call := Complete(c, worker, token, next, reason, actual, artifact, at);
    Text.BlankMeans(reason);
    if Plan(m, db, call).Ok? {
      var a := Finish(c, at, worker, token, next, reason, actual, artifact);
      DoAllOne(m, db, a);
    }
  }

  // ---------------------------------------------------------------- heartbeat

  predicate Renewable(m: Manifest, db: Db, c: CellId, worker: string, token: string, seconds: int, at: int) {
    && seconds >= 1
    && c < |db.rows| && c < |m.cells|
    && Holds(db.rows[c], worker, token, at)
    && NotNegative(m.cells[c].estimate)
  }

  function Renewed(m: Manifest, db: Db, c: CellId, worker: string, token: string, seconds: int, at: int): Db
    requires Renewable(m, db, c, worker, token, seconds, at)
  {
    var row := db.rows[c];
    var reason := "lease-heartbeat:" + worker;
    Db(db.rows[c := Row(Leased, row.actual, row.attempts, Some(worker), Some(token), row.leasedAt,
                        Some(Later(row.expires.value, at + seconds)), row.artifact, Some(reason), at)],
       Appended(m, db.events, c, Leased, Leased, at, Some(worker), Some(token), row.attempts, reason,
                Price(m.cells[c]), 0.0, None))
  }

  lemma HeartbeatMeans(m: Manifest, db: Db, c: CellId, worker: string, token: string, seconds: int, at: int)
    requires Fits(m, db)
    ensures var call := Heartbeat(c, worker, token, seconds, at);
      var accepted := Renewable(m, db, c, worker, token, seconds, at);
      && (Plan(m, db, call).Ok? <==> accepted)
      && Step(m, db, call) == if accepted then Renewed(m, db, c, worker, token, seconds, at) else db
  {
    hide Text.Blank, Text.HasText, Money.Round8;
    var call := Heartbeat(c, worker, token, seconds, at);
    var reason := "lease-heartbeat:" + worker;
    Text.BlankMeans(reason);
    TextWithHead(reason);
    if Plan(m, db, call).Ok? {
      DoAllOne(m, db, Renew(c, at, seconds, worker, token));
    }
  }

  lemma TextWithHead(s: string)
    requires s != [] && !Text.SpaceCode(s[0] as int)
    ensures Text.HasText(s)
  {
  }

  // ---------------------------------------------------------------- requeue

  predicate Requeueable(m: Manifest, db: Db, c: CellId, reason: string) {
    && c < |db.rows| && c < |m.cells|
    && db.rows[c].state in {Leased, Failed}
    && NotNegative(m.cells[c].estimate)
    && Text.HasText(reason)
  }

  function Requeued(m: Manifest, db: Db, c: CellId, reason: string, requestedBy: Option<string>, at: int): Db
    requires Requeueable(m, db, c, reason)
  {
    var row := db.rows[c];
    Db(db.rows[c := Row(Ready, row.actual, row.attempts, row.owner, row.token, row.leasedAt, row.expires, None,
                        Some(reason), at)],
       Appended(m, db.events, c, row.state, Ready, at, requestedBy, None, row.attempts, reason,
                Price(m.cells[c]), 0.0, None))
  }

  lemma RequeueMeans(m: Manifest, db: Db, c: CellId, reason: string, requestedBy: Option<string>, at: int)
    requires Fits(m, db)
    ensures var call := RequeueFailed(c, reason, requestedBy, at);
      var accepted := Requeueable(m, db, c, reason);
      && (Plan(m, db, call).Ok? <==> accepted)
      && Step(m, db, call) == if accepted then Requeued(m, db, c, reason, requestedBy, at) else db
  {
    hide Text.Blank, Text.HasText, Money.Round8;
    var call := RequeueFailed(c, reason, requestedBy, at);
    Text.BlankMeans(reason);
    if Plan(m, db, call).Ok? {
      DoAllOne(m, db, Requeue(c, at, requestedBy, reason));
    }
  }

  // ---------------------------------------------------------------- errors

  predicate Owned(row: Row, worker: string, token: string) {
    row.state == Leased && row.owner == Some(worker) && row.token == Some(token)
  }

  predicate Over(row: Row, at: int) {
    row.expires.Some? && row.expires.value <= at
  }

  /** Which error a completion raises first: bad arguments, then the cell, its state, its owner, its expiry. */
  lemma CompleteErrors(m: Manifest, db: Db, c: CellId, worker: string, token: string, next: CellState,
                       reason: string, actual: real, artifact: Option<string>, at: int)
    requires Fits(m, db)
    ensures var r := Plan(m, db, Complete(c, worker, token, next, reason, actual, artifact, at));
      && (next in {Leased, BlockedPrice, BlockedQualification} || actual < 0.0 ==> r == Err(BadArgument))
      && (next in {Ready, Succeeded, Failed, Quarantined, Cancelled} && actual >= 0.0 ==>
            && (c >= |db.rows| ==> r == Err(UnknownCell))
            && (c < |db.rows| ==>
                  var row := db.rows[c];
                  && (row.state != Leased ==> r == Err(NotLeased))
                  && (row.state == Leased && !Owned(row, worker, token) ==> r == Err(NotOwner))
                  && (Owned(row, worker, token) && Over(row, at) ==> r == Err(LeaseExpired))))
  {
  }

  /** A new store: every cell in its manifest state, at no cost, never leased, and nothing logged. */
  lemma InitialMeans(m: Manifest, createdAt: int, c: CellId)
    requires c < |m.cells|
    ensures var db := InitialDb(m, createdAt);
      && |db.rows| == |m.cells| && db.events == []
      && db.rows[c] == Row(m.cells[c].initial, 0.0, 0, None, None, None, None, None, None, createdAt)
  {
  }

  /** Which objection to an event comes first: the change, the reason, the costs, the artifact. */
  lemma ObjectionMeans(d: Draft)
    ensures var legal, text := (d.previous, d.next) in CHANGES, Text.HasText(d.reason);
      var charged := d.estimate >= 0.0 && d.actual >= 0.0;
      var named := d.next in {Succeeded, Quarantined} ==> d.artifact.Some? && d.artifact.value != "";
      Objection(d) ==
        if !legal then Some(IllegalTransition)
        else if !text then Some(BlankReason)
        else if !charged then Some(NegativeCost)
        else if !named then Some(ArtifactRequired)
        else None
  {
    hide Text.Blank, Text.HasText;
    ChangesAllowed(d.previous, d.next);
    Text.BlankMeans(d.reason);
  }

  /** The same errors in the same order for a heartbeat, and the two of a requeue. */
  lemma OtherErrors(m: Manifest, db: Db, c: CellId, worker: string, token: string, seconds: int,
                    reason: string, requestedBy: Option<string>, at: int)
    requires Fits(m, db)
    ensures var r := Plan(m, db, Heartbeat(c, worker, token, seconds, at));
      && (seconds < 1 ==> r == Err(BadArgument))
      && (seconds >= 1 && c >= |db.rows| ==> r == Err(UnknownCell))
      && (seconds >= 1 && c < |db.rows| ==>
            && (db.rows[c].state != Leased ==> r == Err(NotLeased))
            && (db.rows[c].state == Leased && !Owned(db.rows[c], worker, token) ==> r == Err(NotOwner))
            && (Owned(db.rows[c], worker, token) && Over(db.rows[c], at) ==> r == Err(LeaseExpired)))
    ensures var r := Plan(m, db, RequeueFailed(c, reason, requestedBy, at));
      && (c >= |db.rows| ==> r == Err(UnknownCell))
      && (c < |db.rows| && db.rows[c].state !in {Leased, Failed} ==> r == Err(IllegalTransition))
  {
  }
}
