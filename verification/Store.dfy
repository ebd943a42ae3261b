/**
 * The transactional store on values: the table, the event chain, the atomic changes (Action)
 * and, for each public call, the list of changes it commits (Plan) or the error it raises.
 * CampaignStore.dfy holds the class whose methods are proved against these functions.
 */
module Store {
  import opened Prelude
  import opened Campaign
  import Money
  import Text

  datatype Error =
    | BadArgument
    | NotExecutable
    | UnknownCell
    | NotLeased
    | NotOwner
    | LeaseExpired
    | IllegalTransition
    | BlankReason
    | NegativeCost
    | ArtifactRequired
    | NoFreshToken

  /** The transition table of the store: the ledger's table plus leased -> leased. */
  predicate Allowed(previous: CellState, next: CellState) {
    match previous
    case Ready => next in {Leased, Cancelled}
    case Leased => next in {Leased, Ready, Succeeded, Failed, Quarantined, Cancelled}
    case Failed => next == Ready
    case _ => false
  }

  // ---------------------------------------------------------------- rows and events

  /** The content hash is a free constructor, so it is injective. */
  datatype Hash = ContentHash(payload: Payload)

  datatype Payload = Payload(
    sequence: nat,
    campaign: string,
    cell: CellId,
    previous: CellState,
    next: CellState,
    at: int,
    worker: Option<string>,
    token: Option<string>,
    attempt: nat,
    reason: string,
    estimate: real,
    actual: real,
    artifact: Option<string>,
    parent: Option<Hash>)

  /** An event row: its columns, its stored JSON payload and its hash. */
  datatype Event = Event(columns: Payload, stored: Payload, hash: Hash)

  datatype Row = Row(
    state: CellState,
    actual: real,
    attempts: nat,
    owner: Option<string>,
    token: Option<string>,
    leasedAt: Option<int>,
    expires: Option<int>,
    artifact: Option<string>,
    reason: Option<string>,
    updated: int)

  datatype Db = Db(rows: seq<Row>, events: seq<Event>)

  function InitialRow(cell: Cell, createdAt: int): Row {
    Row(cell.initial, 0.0, 0, None, None, None, None, None, None, createdAt)
  }

  function InitialDb(m: Manifest, createdAt: int): Db {
    Db(seq(|m.cells|, i requires 0 <= i < |m.cells| => InitialRow(m.cells[i], createdAt)), [])
  }

  /** What a caller of _insert_event supplies. */
  datatype Draft = Draft(
    cell: CellId,
    previous: CellState,
    next: CellState,
    at: int,
    worker: Option<string>,
    token: Option<string>,
    attempt: nat,
    reason: string,
    estimate: real,
    actual: real,
    artifact: Option<string>)

  function Objection(d: Draft): Option<Error> {
    if !Allowed(d.previous, d.next) then Some(IllegalTransition)
    else if Text.Blank(d.reason) then Some(BlankReason)
    else if d.estimate < 0.0 || d.actual < 0.0 then Some(NegativeCost)
    else if d.next in {Succeeded, Quarantined} && d.artifact in {None, Some("")} then Some(ArtifactRequired)
    else None
  }

  function LastHash(events: seq<Event>): Option<Hash> {
    if events == [] then None else Some(events[|events| - 1].hash)
  }

  function PayloadFor(m: Manifest, events: seq<Event>, d: Draft): Payload {
    Payload(|events|, m.id, d.cell, d.previous, d.next, d.at, d.worker, d.token, d.attempt, d.reason,
            Money.Round8(d.estimate), Money.Round8(d.actual), d.artifact, LastHash(events))
  }

  function EventFor(m: Manifest, events: seq<Event>, d: Draft): Event {
    var payload := PayloadFor(m, events, d);
    Event(payload, payload, ContentHash(payload))
  }

  /** What a worker is given for a lease. */
  datatype Ticket = Ticket(cell: CellId, worker: string, token: string, leasedAt: int, expires: int,
                           attempt: nat, estimate: real)

  /** The ticket that belongs to the event by which a lease was issued. */
  function TicketFrom(m: Manifest, e: Payload, seconds: int): Ticket {
    Ticket(e.cell, if e.worker.Some? then e.worker.value else "", if e.token.Some? then e.token.value else "",
           e.at, e.at + seconds, e.attempt, EstimateOrZero(m, e.cell))
  }

  function TicketsFrom(m: Manifest, events: seq<Event>, base: nat, seconds: int): seq<Ticket>
    requires base <= |events|
  {
    seq(|events| - base, k requires 0 <= k < |events| - base => TicketFrom(m, events[base + k].columns, seconds))
  }

  // ---------------------------------------------------------------- totals read by the scheduler

  function Actuals(rows: seq<Row>): seq<real> {
    seq(|rows|, i requires 0 <= i < |rows| => rows[i].actual)
  }

  function Reservations(m: Manifest, rows: seq<Row>): seq<real> {
    seq(|rows|, i requires 0 <= i < |rows| => if rows[i].state.Leased? then EstimateOrZero(m, i) else 0.0)
  }

  function Spent(rows: seq<Row>): real {
    Sum(Actuals(rows))
  }

  function Reserved(m: Manifest, rows: seq<Row>): real {
    Sum(Reservations(m, rows))
  }

  function ActiveFlags(m: Manifest, rows: seq<Row>, model: string): seq<bool>
    requires |rows| == |m.cells|
  {
    seq(|rows|, i requires 0 <= i < |rows| => rows[i].state.Leased? && m.cells[i].model == model)
  }

  function Active(m: Manifest, rows: seq<Row>, model: string): nat
    requires |rows| == |m.cells|
  {
    Count(ActiveFlags(m, rows, model))
  }

  // ---------------------------------------------------------------- atomic changes

  /** One event together with the row update that accompanies it. */
  datatype Action =
    | Expire(cell: CellId, at: int)
    | Issue(cell: CellId, at: int, seconds: int, worker: string, token: string)
    | Renew(cell: CellId, at: int, seconds: int, worker: string, token: string)
    | Finish(cell: CellId, at: int, worker: string, token: string, next: CellState, reason: string,
             actual: real, artifact: Option<string>)
    | Requeue(cell: CellId, at: int, requestedBy: Option<string>, reason: string)

  predicate Fits(m: Manifest, db: Db) {
    |db.rows| == |m.cells|
  }

  function DraftFor(m: Manifest, db: Db, a: Action): Draft
    requires a.cell < |db.rows|
  {
    var row := db.rows[a.cell];
    var estimate := EstimateOrZero(m, a.cell);
    match a
    case Expire(c, at) =>
      Draft(c, Leased, Ready, at, row.owner, row.token, row.attempts, "lease-expired", estimate, 0.0, None)
    case Issue(c, at, _, worker, token) =>
      Draft(c, Ready, Leased, at, Some(worker), Some(token), row.attempts + 1, "worker-lease:" + worker,
            estimate, 0.0, None)
    case Renew(c, at, _, worker, token) =>
      Draft(c, Leased, Leased, at, Some(worker), Some(token), row.attempts, "lease-heartbeat:" + worker,
            estimate, 0.0, None)
    case Finish(c, at, worker, token, next, reason, actual, artifact) =>
      Draft(c, Leased, next, at, Some(worker), Some(token), row.attempts, reason, estimate, actual, artifact)
    case Requeue(c, at, requestedBy, reason) =>
      Draft(c, row.state, Ready, at, requestedBy, None, row.attempts, reason, estimate, 0.0, None)
  }

  function RowFor(db: Db, a: Action): Row
    requires a.cell < |db.rows|
  {
    var row := db.rows[a.cell];
    match a
    case Expire(_, at) =>
      row.(state := Ready, owner := None, token := None, leasedAt := None, expires := None,
           reason := Some("lease-expired"), updated := at)
    case Issue(_, at, seconds, worker, token) =>
      row.(state := Leased, attempts := row.attempts + 1, owner := Some(worker), token := Some(token),
           leasedAt := Some(at), expires := Some(at + seconds), reason := Some("worker-lease:" + worker),
           updated := at)
    case Renew(_, at, seconds, worker, _) =>
      row.(expires := Some(LaterExpiry(row.expires, at + seconds)),
           reason := Some("lease-heartbeat:" + worker), updated := at)
    case Finish(_, at, _, _, next, reason, actual, artifact) =>
      row.(state := next, actual := row.actual + actual, artifact := artifact, reason := Some(reason),
           owner := None, token := None, leasedAt := None, expires := None, updated := at)
    case Requeue(_, at, _, reason) =>
      row.(state := Ready, reason := Some(reason), updated := at, artifact := None)
  }

  function LaterExpiry(expires: Option<int>, target: int): int {
    if expires.Some? && expires.value > target then expires.value else target
  }

  function Do(m: Manifest, db: Db, a: Action): (r: Db)
    requires a.cell < |db.rows|
    ensures |r.rows| == |db.rows| && |r.events| == |db.events| + 1
  {
    Db(db.rows[a.cell := RowFor(db, a)], db.events + [EventFor(m, db.events, DraftFor(m, db, a))])
  }

  predicate InRange(db: Db, actions: seq<Action>) {
    forall i | 0 <= i < |actions| :: actions[i].cell < |db.rows|
  }

  function DoAll(m: Manifest, db: Db, actions: seq<Action>): (r: Db)
    requires InRange(db, actions)
    ensures |r.rows| == |db.rows| && |r.events| == |db.events| + |actions|
  {
    if actions == [] then db
    else Do(m, DoAll(m, db, actions[..|actions| - 1]), actions[|actions| - 1])
  }

  lemma {:induction false} DoAllConcat(m: Manifest, db: Db, first: seq<Action>, second: seq<Action>)
    requires InRange(db, first) && InRange(db, second)
    ensures InRange(db, first + second)
    ensures DoAll(m, db, first + second) == DoAll(m, DoAll(m, db, first), second)
  {
    if second == [] {
      assert first + second == first;
    } else {
      var init := second[..|second| - 1];
      DoAllConcat(m, db, first, init);
      assert (first + second)[..|first + second| - 1] == first + init;
    }
  }

  lemma DoAllOne(m: Manifest, db: Db, a: Action)
    requires a.cell < |db.rows|
    ensures DoAll(m, db, [a]) == Do(m, db, a)
  {
    assert [a][..0] == [];
  }

  // ---------------------------------------------------------------- when a change is made

  predicate Matches(row: Row, worker: string, token: string) {
    row.owner == Some(worker) && row.token == Some(token)
  }

  predicate Expired(row: Row, at: int) {
    row.state.Leased? && row.expires.Some? && row.expires.value <= at
  }

  predicate Capped(m: Manifest, rows: seq<Row>, c: CellId)
    requires |rows| == |m.cells| && c < |rows|
  {
    Active(m, rows, m.cells[c].model) >= m.maxParallelPerModel
  }

  predicate OverBudget(m: Manifest, rows: seq<Row>, c: CellId)
    requires |rows| == |m.cells| && c < |rows|
  {
    m.hardBudget.Some? && Spent(rows) + Reserved(m, rows) + EstimateOrZero(m, c) > m.hardBudget.value
  }

  /** The scheduler passes over a ready cell for one of three reasons. */
  predicate Refused(m: Manifest, rows: seq<Row>, c: CellId)
    requires |rows| == |m.cells| && c < |rows|
  {
    Capped(m, rows, c) || m.cells[c].estimate.None? || OverBudget(m, rows, c)
  }

  predicate TokenSeen(db: Db, token: string) {
    (exists i | 0 <= i < |db.rows| :: db.rows[i].token == Some(token)) ||
    (exists i | 0 <= i < |db.events| :: db.events[i].columns.token == Some(token))
  }

  /** What the calls have checked when they commit an action. */
  predicate Enabled(m: Manifest, db: Db, a: Action) {
    && Fits(m, db)
    && a.cell < |db.rows|
    && Objection(DraftFor(m, db, a)).None?
    && var row := db.rows[a.cell];
       match a
       case Expire(_, at) => Expired(row, at)
       case Issue(c, _, seconds, _, token) =>
         && row.state.Ready?
         && seconds >= 1
         && m.hardBudget.Some?
         && !Refused(m, db.rows, c)
         && !TokenSeen(db, token)
       case Renew(_, at, seconds, worker, token) =>
         && row.state.Leased?
         && seconds >= 1
         && Matches(row, worker, token)
         && row.expires.Some?
         && row.expires.value > at
       case Finish(_, at, worker, token, next, _, actual, _) =>
         && row.state.Leased?
         && next in {Ready, Succeeded, Failed, Quarantined, Cancelled}
         && Matches(row, worker, token)
         && row.expires.Some?
         && row.expires.value > at
       case Requeue(_, _, _, _) => true
  }

  // ---------------------------------------------------------------- the public calls

  datatype LeaseRequest = LeaseRequest(
    worker: string,
    limit: int,
    seconds: int,
    stage: Option<string>,
    model: Option<string>,
    at: int,
    supply: seq<string>)

  datatype Call =
    | Reclaim(at: int)
    | Lease(request: LeaseRequest)
    | Heartbeat(cell: CellId, worker: string, token: string, seconds: int, at: int)
    | Complete(cell: CellId, worker: string, token: string, next: CellState, reason: string,
               actual: real, artifact: Option<string>, at: int)
    | RequeueFailed(cell: CellId, reason: string, requestedBy: Option<string>, at: int)

  /** The expired leases among the given cells, in the given order. */
  function Expirations(db: Db, order: seq<CellId>, at: int): (r: seq<Action>)
    requires forall i | 0 <= i < |order| :: order[i] < |db.rows|
    ensures InRange(db, r)
    ensures forall i | 0 <= i < |r| ::
      r[i].Expire? && r[i].at == at && r[i].cell in order && Expired(db.rows[r[i].cell], at)
  {
    if order == [] then []
    else
      var c := order[|order| - 1];
      Expirations(db, order[..|order| - 1], at) + (if Expired(db.rows[c], at) then [Expire(c, at)] else [])
  }

  predicate AnyObjection(m: Manifest, db: Db, actions: seq<Action>)
    requires InRange(db, actions)
  {
    exists i | 0 <= i < |actions| :: Objection(DraftFor(m, db, actions[i])).Some?
  }

  function PlanReclaim(m: Manifest, db: Db, at: int): (r: Result<seq<Action>, Error>)
    requires Fits(m, db)
    ensures r.Ok? ==> InRange(db, r.value)
  {
    var actions := Expirations(db, KeyOrder(m.cells), at);
    if AnyObjection(m, db, actions) then Err(NegativeCost) else Ok(actions)
  }

  predicate Wanted(m: Manifest, rows: seq<Row>, request: LeaseRequest, c: CellId)
    requires |rows| == |m.cells| && c < |rows|
  {
    && rows[c].state.Ready?
    && (request.stage.Some? ==> m.cells[c].stage == request.stage.value)
    && (request.model.Some? ==> m.cells[c].model == request.model.value)
  }

  function Drawn(supply: seq<string>, i: nat): string {
    if i < |supply| then Text.Strip(supply[i]) else ""
  }

  function Labelled(raw: string): string {
    if "LEASE-" <= raw then raw else "LEASE-" + raw
  }

  const TOKEN_TRIES := 8

  /** The results of the next eight calls of the token factory. */
  function Draws(supply: seq<string>, drawn: nat): (r: seq<string>)
    ensures |r| == TOKEN_TRIES && forall i | 0 <= i < |r| :: r[i] == Drawn(supply, drawn + i)
  {
    seq(TOKEN_TRIES, i requires 0 <= i => Drawn(supply, drawn + i))
  }

  /** The first usable token among the draws, with the number of draws made. */
  function FirstUsable(db: Db, draws: seq<string>): (r: Option<(string, nat)>)
    ensures r.Some? ==> !TokenSeen(db, r.value.0)
  {
    if draws == [] then None
    else if draws[0] != "" && !TokenSeen(db, Labelled(draws[0])) then Some((Labelled(draws[0]), 1))
    else
      match FirstUsable(db, draws[1..])
      case None => None
      case Some((token, n)) => Some((token, n + 1))
  }

  /** What the scheduler does with one cell: nothing, a lease and the draws used so far, or an error. */
  function Choice(m: Manifest, db: Db, request: LeaseRequest, c: CellId, drawn: nat)
    : Result<Option<(Action, nat)>, Error>
    requires Fits(m, db) && c < |db.rows|
  {
    if !Wanted(m, db.rows, request, c) || Refused(m, db.rows, c) then Ok(None)
    else
      match FirstUsable(db, Draws(request.supply, drawn))
      case None => Err(NoFreshToken)
      case Some((token, n)) =>
        var a := Issue(c, request.at, request.seconds, request.worker, token);
        var objection := Objection(DraftFor(m, db, a));
        if objection.Some? then Err(objection.value) else Ok(Some((a, drawn + n)))
  }

  /** The greedy pass over the given cells, totals being recomputed after every lease. */
  function PlanGreedy(m: Manifest, db: Db, request: LeaseRequest, order: seq<CellId>, taken: nat, drawn: nat)
    : (r: Result<seq<Action>, Error>)
    requires Fits(m, db)
    requires forall i | 0 <= i < |order| :: order[i] < |db.rows|
    ensures r.Ok? ==> InRange(db, r.value)
    decreases |order|
  {
    if order == [] || taken >= request.limit then Ok([])
    else
      match Choice(m, db, request, order[0], drawn)
      case Err(e) => Err(e)
      case Ok(None) => PlanGreedy(m, db, request, order[1..], taken, drawn)
      case Ok(Some((a, drawn'))) =>
        match PlanGreedy(m, Do(m, db, a), request, order[1..], taken + 1, drawn')
        case Err(e) => Err(e)
        case Ok(rest) => Ok([a] + rest)
  }

  function RequestError(m: Manifest, request: LeaseRequest): Option<Error> {
    if Text.Blank(request.worker) || request.limit < 1 || request.seconds < 1 then Some(BadArgument)
    else if m.hardBudget.None? || BlocksExecution(m.gate) then Some(NotExecutable)
    else None
  }

  function PlanLease(m: Manifest, db: Db, request: LeaseRequest): (r: Result<seq<Action>, Error>)
    requires Fits(m, db)
    ensures r.Ok? ==> InRange(db, r.value)
  {
    var refused := RequestError(m, request);
    if refused.Some? then Err(refused.value)
    else
      match PlanReclaim(m, db, request.at)
      case Err(e) => Err(e)
      case Ok(expirations) =>
        match PlanGreedy(m, DoAll(m, db, expirations), request, KeyOrder(m.cells), 0, 0)
        case Err(e) => Err(e)
        case Ok(issues) => Ok(expirations + issues)
  }

  /** The checks shared by heartbeat and completion. */
  function LeaseError(db: Db, c: CellId, worker: string, token: string, at: int): Option<Error> {
    if c >= |db.rows| then Some(UnknownCell)
    else if !db.rows[c].state.Leased? then Some(NotLeased)
    else if !Matches(db.rows[c], worker, token) then Some(NotOwner)
    else if db.rows[c].expires.None? then Some(BadArgument)
    else if db.rows[c].expires.value <= at then Some(LeaseExpired)
    else None
  }

  function Single(m: Manifest, db: Db, a: Action): (r: Result<seq<Action>, Error>)
    requires a.cell < |db.rows|
    ensures r.Ok? ==> r.value == [a]
  {
    var objection := Objection(DraftFor(m, db, a));
    if objection.Some? then Err(objection.value) else Ok([a])
  }

  /** The changes a call commits, or the error with which it rolls back. */
  function Plan(m: Manifest, db: Db, call: Call): (r: Result<seq<Action>, Error>)
    requires Fits(m, db)
    ensures r.Ok? ==> InRange(db, r.value)
  {
    match call
    case Reclaim(at) => PlanReclaim(m, db, at)
    case Lease(request) => PlanLease(m, db, request)
    case Heartbeat(c, worker, token, seconds, at) =>
      if seconds < 1 then Err(BadArgument)
      else
        var e := LeaseError(db, c, worker, token, at);
        if e.Some? then Err(e.value) else Single(m, db, Renew(c, at, seconds, worker, token))
    case Complete(c, worker, token, next, reason, actual, artifact, at) =>
      if next !in {Ready, Succeeded, Failed, Quarantined, Cancelled} || actual < 0.0 then Err(BadArgument)
      else
        var e := LeaseError(db, c, worker, token, at);
        if e.Some? then Err(e.value)
        else Single(m, db, Finish(c, at, worker, token, next, reason, actual, artifact))
    case RequeueFailed(c, reason, requestedBy, at) =>
      if c >= |db.rows| then Err(UnknownCell) else Single(m, db, Requeue(c, at, requestedBy, reason))
  }

  /** The table and log after a call: committed changes, or nothing. */
  function Step(m: Manifest, db: Db, call: Call): (r: Db)
    requires Fits(m, db)
    ensures Fits(m, r)
  {
    match Plan(m, db, call)
    case Err(_) => db
    case Ok(actions) => DoAll(m, db, actions)
  }
}
