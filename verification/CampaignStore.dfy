/**
 * The store as an object: table and log are updated in place, each method is one transaction,
 * and an exception rolls it back. Every method is proved against Store.Plan and Store.Step.
 */
module StoreObject {
  import opened Prelude
  import opened Campaign
  import opened Store
  import opened StoreLog
  import opened StoreInvariants
  import opened StoreReconcile
  import opened StoreCalls
  import opened StoreLeasing
  import Money
  import Text

  /** The local variables of the greedy pass. */
  datatype Tally = Tally(spent: real, reserved: real, active: map<string, nat>, tickets: seq<Ticket>, drawn: nat)

  datatype Status = Status(
    cells: nat,
    events: nat,
    spent: real,
    reserved: real,
    remaining: Option<real>,
    active: nat,
    expired: nat,
    terminal: nat,
    complete: bool,
    budgetExceeded: bool)

  datatype Report = Report(
    valid: bool,
    chainValid: bool,
    statesMatch: bool,
    costsMatch: bool,
    leasesValid: bool,
    eventCount: nat,
    replayedCost: real,
    storedCost: real)

  function TerminalFlags(rows: seq<Row>): seq<bool> {
    seq(|rows|, i requires 0 <= i < |rows| => Terminal(rows[i].state))
  }

  function LeasedFlags(rows: seq<Row>): seq<bool> {
    seq(|rows|, i requires 0 <= i < |rows| => rows[i].state.Leased?)
  }

  function ExpiredFlags(rows: seq<Row>, at: int): seq<bool> {
    seq(|rows|, i requires 0 <= i < |rows| => Expired(rows[i], at))
  }

  predicate AllTerminal(rows: seq<Row>) {
    forall i | 0 <= i < |rows| :: Terminal(rows[i].state)
  }

  /** When a row's lease began; every leased row of a run says so. */
  function StartOf(row: Row): int {
    if row.leasedAt.Some? then row.leasedAt.value else 0
  }

  /** The lease that a row holds, as its worker is told. */
  function LeaseOf(m: Manifest, row: Row, c: CellId): Ticket {
    Ticket(c, if row.owner.Some? then row.owner.value else "", if row.token.Some? then row.token.value else "",
           StartOf(row), if row.expires.Some? then row.expires.value else 0, row.attempts, EstimateOrZero(m, c))
  }

  class CampaignStore {
    const manifest: Manifest
    var rows: seq<Row>
    var events: seq<Event>

    ghost predicate Valid()
      reads this
    {
      |rows| == |manifest.cells|
    }

    ghost function Contents(): Db
      reads this
    {
      Db(rows, events)
    }

    constructor (m: Manifest, createdAt: int)
      ensures Valid() && manifest == m
      ensures Contents() == InitialDb(m, createdAt)
    {
      manifest := m;
      rows := InitialDb(m, createdAt).rows;
      events := [];
    }

    /** Checks the event, appends it to the chain, or raises. */
    method InsertEvent(d: Draft) returns (r: Result<Event, Error>)
      modifies this`events
      ensures Objection(d).None? ==>
        r == Ok(EventFor(manifest, old(events), d)) && events == old(events) + [EventFor(manifest, old(events), d)]
      ensures Objection(d).Some? ==> r == Err(Objection(d).value) && events == old(events)
    {
      if !Allowed(d.previous, d.next) {
        return Err(IllegalTransition);
      }
      if Text.Blank(d.reason) {
        return Err(BlankReason);
      }
      if d.estimate < 0.0 || d.actual < 0.0 {
        return Err(NegativeCost);
      }
      if (d.next == Succeeded || d.next == Quarantined) && (d.artifact.None? || d.artifact.value == "") {
        return Err(ArtifactRequired);
      }
      var parent := if events == [] then None else Some(events[|events| - 1].hash);
      var payload := Payload(|events|, manifest.id, d.cell, d.previous, d.next, d.at, d.worker, d.token,
                             d.attempt, d.reason, Money.Round8(d.estimate), Money.Round8(d.actual),
                             d.artifact, parent);
      var e := Event(payload, payload, ContentHash(payload));
      events := events + [e];
      return Ok(e);
    }

    /** The reclaim loop, inside a transaction: on an error the caller rolls back. */
    method ReclaimInTransaction(at: int) returns (r: Result<seq<Action>, Error>)
      requires Valid()
      modifies this
      ensures Valid()
      ensures r == PlanReclaim(manifest, old(Contents()), at)
      ensures r.Ok? ==> Contents() == DoAll(manifest, old(Contents()), r.value)
    {
      hide Do, DraftFor, Objection, KeyOrder, Expirations, DoAll, AnyObjection;
      var order := KeyOrder(manifest.cells);
      ghost var db := Contents();
      var done: seq<Action> := [];
      ReclaimStart(manifest, db, order, at);
      for i := 0 to |order|
        invariant Valid()
        invariant Reclaiming(manifest, db, order, i, at, done, Contents())
      {
        var c := order[i];
        ghost var before := Contents();
        if rows[c].state == Leased && rows[c].expires.Some? && rows[c].expires.value <= at {
          var problem := ExpireRow(c, at);
          if problem.Some? {
            ReclaimFail(manifest, db, order, i, at, done, before);
            return Err(NegativeCost);
          }
          ReclaimTake(manifest, db, order, i, at, done, before);
          done := done + [Expire(c, at)];
        } else {
          ReclaimSkip(manifest, db, order, i, at, done, before);
        }
      }
      ReclaimEnd(manifest, db, order, at, done, Contents());
      r := Ok(done);
    }

    /** One expired lease: its event and its row. */
    method ExpireRow(c: CellId, at: int) returns (problem: Option<Error>)
      requires Valid() && c < |rows| && Expired(rows[c], at)
      modifies this
      ensures Valid()
      ensures problem == Objection(DraftFor(manifest, old(Contents()), Expire(c, at)))
      ensures problem.None? ==> Contents() == Do(manifest, old(Contents()), Expire(c, at))
    {
      var row := rows[c];
      var estimate := if manifest.cells[c].estimate.Some? then manifest.cells[c].estimate.value else 0.0;
      var inserted := InsertEvent(Draft(c, Leased, Ready, at, row.owner, row.token, row.attempts,
                                        "lease-expired", estimate, 0.0, None));
      if inserted.Err? {
        return Some(inserted.error);
      }
      rows := rows[c := row.(state := Ready, owner := None, token := None, leasedAt := None, expires := None,
                             reason := Some("lease-expired"), updated := at)];
      return None;
    }

    method ReclaimExpired(at: int) returns (r: Result<seq<Action>, Error>)
      requires Valid()
      modifies this
      ensures Valid()
      ensures r == Plan(manifest, old(Contents()), Reclaim(at))
      ensures Contents() == Step(manifest, old(Contents()), Reclaim(at))
    {
      var rows0, events0 := rows, events;
      r := ReclaimInTransaction(at);
      if r.Err? {
        rows, events := rows0, events0;
      }
    }

    method NewLeaseToken(supply: seq<string>, drawn: nat) returns (r: Option<(string, nat)>)
      ensures r == FirstUsable(Contents(), Draws(supply, drawn))
    {
      hide FirstUsable, TokenSeen, Text.Strip;
      ghost var draws := Draws(supply, drawn);
      assert draws[0..] == draws;
      var i := 0;
      while i < TOKEN_TRIES
        invariant 0 <= i <= TOKEN_TRIES
        invariant FirstUsable(Contents(), draws) == LaterBy(i, FirstUsable(Contents(), draws[i..]))
      {
        FirstUsableStep(Contents(), draws, i);
        var raw := if drawn + i < |supply| then Text.Strip(supply[drawn + i]) else "";
        assert raw == draws[i];
        i := i + 1;
        if raw == "" {
          continue;
        }
        var token := if "LEASE-" <= raw then raw else "LEASE-" + raw;
        var active := exists j | 0 <= j < |rows| :: rows[j].token == Some(token);
        var recorded := exists j | 0 <= j < |events| :: events[j].columns.token == Some(token);
        SeenIs(Contents(), token);
        if !active && !recorded {
          return Some((token, i));
        }
      }
      NoneUsable(Contents(), draws[TOKEN_TRIES..]);
      return None;
    }

    /** One lease: its event, its row and the ticket handed to the worker. */
    method IssueRow(c: CellId, request: LeaseRequest, token: string) returns (r: Result<Ticket, Error>)
      requires Valid() && c < |rows| && rows[c].state.Ready?
      modifies this
      ensures Valid()
      ensures var a := Issue(c, request.at, request.seconds, request.worker, token);
        match Objection(DraftFor(manifest, old(Contents()), a))
        case Some(e) => r == Err(e)
        case None =>
          && r.Ok? && Contents() == Do(manifest, old(Contents()), a)
          && r.value == TicketFrom(manifest, events[|events| - 1].columns, request.seconds)
    {
      var row := rows[c];
      var estimate := if manifest.cells[c].estimate.Some? then manifest.cells[c].estimate.value else 0.0;
      var expires := request.at + request.seconds;
      var attempt := row.attempts + 1;
      var inserted := InsertEvent(Draft(c, Ready, Leased, request.at, Some(request.worker), Some(token), attempt,
                                        "worker-lease:" + request.worker, estimate, 0.0, None));
      if inserted.Err? {
        return Err(inserted.error);
      }
      rows := rows[c := row.(state := Leased, attempts := attempt, owner := Some(request.worker), token := Some(token),
                             leasedAt := Some(request.at), expires := Some(expires),
                             reason := Some("worker-lease:" + request.worker), updated := request.at)];
      r := Ok(Ticket(c, request.worker, token, request.at, expires, attempt, estimate));
    }

    /** The number of live leases of every model. */
    method CountActive() returns (active: map<string, nat>)
      requires Valid()
      ensures CountsActive(manifest, rows, active)
    {
      active := map model | model in (set i | 0 <= i < |rows| :: manifest.cells[i].model)
        :: Active(manifest, rows, model);
    }

    /** One row of the query: filters, cap, price, budget, then a token and the lease. */
    method ConsiderRow(c: CellId, request: LeaseRequest, pass: Tally)
      returns (r: Result<Option<(Ticket, nat)>, Error>, ghost a: Action)
      requires Valid() && manifest.hardBudget.Some? && c < |rows|
      requires TotalsOf(manifest, rows, pass)
      modifies this
      ensures Valid()
      ensures r.Err? ==> Choice(manifest, old(Contents()), request, c, pass.drawn) == Err(r.error)
      ensures r == Ok(None) ==>
        Choice(manifest, old(Contents()), request, c, pass.drawn) == Ok(None) && Contents() == old(Contents())
      ensures r.Ok? && r.value.Some? ==>
        && Choice(manifest, old(Contents()), request, c, pass.drawn) == Ok(Some((a, r.value.value.1)))
        && a.Issue? && a.cell == c
        && old(rows)[c].state.Ready? && manifest.cells[c].estimate.Some?
        && Contents() == Do(manifest, old(Contents()), a)
        && r.value.value.0 == TicketFrom(manifest, events[|events| - 1].columns, request.seconds)
    {
      hide FirstUsable, Draws, Spent, Reserved, Active, Do, DoAll, TicketFrom;
      a := Expire(c, 0);
      var cell := manifest.cells[c];
      if rows[c].state != Ready || (request.stage.Some? && cell.stage != request.stage.value)
         || (request.model.Some? && cell.model != request.model.value) {
        return Ok(None), a;
      }
      if pass.active[cell.model] >= manifest.maxParallelPerModel {
        return Ok(None), a;
      }
      if cell.estimate.None? {
        return Ok(None), a;
      }
      if pass.spent + pass.reserved + cell.estimate.value > manifest.hardBudget.value {
        return Ok(None), a;
      }
      var draw := NewLeaseToken(request.supply, pass.drawn);
      if draw.None? {
        return Err(NoFreshToken), a;
      }
      a := Issue(c, request.at, request.seconds, request.worker, draw.value.0);
      var issue := IssueRow(c, request, draw.value.0);
      if issue.Err? {
        return Err(issue.error), a;
      }
      r := Ok(Some((issue.value, pass.drawn + draw.value.1)));
    }

    /** The loop body of the greedy pass: one row, and the running totals after it. */
    method AdvancePass(request: LeaseRequest, order: seq<CellId>, i: nat, pass: Tally, ghost db: Db,
                       ghost issued: seq<Action>)
      returns (r: Result<Tally, Error>, ghost issued': seq<Action>)
      requires Valid() && manifest.hardBudget.Some? && i < |order| && |pass.tickets| < request.limit
      requires Progress(manifest, db, request, order, i, issued, Contents(), pass.drawn)
      requires PassOf(manifest, Contents(), |db.events|, request, pass) && |pass.tickets| == |issued|
      modifies this
      ensures Valid()
      ensures r.Err? ==> PlanGreedy(manifest, db, request, order, 0, 0) == Err(r.error)
      ensures r.Ok? ==>
        && Progress(manifest, db, request, order, i + 1, issued', Contents(), r.value.drawn)
        && PassOf(manifest, Contents(), |db.events|, request, r.value) && |r.value.tickets| == |issued'|
    {
      hide PlanGreedy, DoAll, Do, Choice, Spent, Reserved, Active, TicketsFrom, TicketFrom;
      var c := order[i];
      ghost var before := Contents();
      issued' := issued;
      var taken, a := ConsiderRow(c, request, pass);
      if taken.Err? {
        ProgressFail(manifest, db, request, order, i, issued, before, pass.drawn);
        return Err(taken.error), issued';
      }
      if taken.value.None? {
        ProgressSkip(manifest, db, request, order, i, issued, before, pass.drawn);
        return Ok(pass), issued';
      }
      var (ticket, drawn) := taken.value.value;
      var model := manifest.cells[c].model;
      ProgressTake(manifest, db, request, order, i, issued, before, pass.drawn, a, drawn);
      IssueTotals(manifest, before, a, pass);
      TicketsSnoc(manifest, before, a, |db.events|, request.seconds);
      issued' := issued + [a];
      r := Ok(Tally(pass.spent, pass.reserved + manifest.cells[c].estimate.value,
                   pass.active[model := pass.active[model] + 1], pass.tickets + [ticket], drawn));
    }

    /** The greedy pass over the ready cells. */
    method LeaseReady(request: LeaseRequest) returns (r: Result<seq<Ticket>, Error>, ghost issued: seq<Action>)
      requires Valid() && manifest.hardBudget.Some?
      modifies this
      ensures Valid()
      ensures r.Err? ==> PlanGreedy(manifest, old(Contents()), request, KeyOrder(manifest.cells), 0, 0) == Err(r.error)
      ensures r.Ok? ==>
        && PlanGreedy(manifest, old(Contents()), request, KeyOrder(manifest.cells), 0, 0) == Ok(issued)
        && Contents() == DoAll(manifest, old(Contents()), issued)
        && r.value == TicketsFrom(manifest, events, |old(events)|, request.seconds)
    {
      hide Progress, PlanGreedy, DoAll, Choice, KeyOrder;
      ghost var db := Contents();
      var active := CountActive();
      var pass := Tally(Spent(rows), Reserved(manifest, rows), active, [], 0);
      var order := KeyOrder(manifest.cells);
      issued := [];
      ProgressStart(manifest, db, request, order);
      var i := 0;
      while i < |order| && |pass.tickets| < request.limit
        invariant 0 <= i <= |order|
        invariant Valid()
        invariant Progress(manifest, db, request, order, i, issued, Contents(), pass.drawn)
        invariant PassOf(manifest, Contents(), |db.events|, request, pass) && |pass.tickets| == |issued|
      {
        var next, issued' := AdvancePass(request, order, i, pass, db, issued);
        if next.Err? {
          return Err(next.error), issued';
        }
        pass, issued, i := next.value, issued', i + 1;
      }
      ProgressEnd(manifest, db, request, order, i, issued, Contents(), pass.drawn);
      r := Ok(pass.tickets);
    }

    /** Lease ready cells in one transaction: reclaim, then the greedy pass. */
    method LeaseCells(request: LeaseRequest) returns (r: Result<seq<Ticket>, Error>)
      requires Valid()
      modifies this
      ensures Valid()
      ensures Contents() == Step(manifest, old(Contents()), Lease(request))
      ensures match Plan(manifest, old(Contents()), Lease(request))
        case Err(e) => r == Err(e)
        case Ok(actions) =>
          var expirations := PlanReclaim(manifest, old(Contents()), request.at).value;
          r == Ok(TicketsFrom(manifest, events, |old(events)| + |expirations|, request.seconds))
    {
      hide DoAll, PlanGreedy, PlanReclaim, KeyOrder, TicketsFrom;
      if Text.Blank(request.worker) || request.limit < 1 || request.seconds < 1 {
        return Err(BadArgument);
      }
      if manifest.hardBudget.None? || BlocksExecution(manifest.gate) {
        return Err(NotExecutable);
      }
      var rows0, events0 := rows, events;
      ghost var db0 := Contents();
      var reclaimed := ReclaimInTransaction(request.at);
      if reclaimed.Err? {
        rows, events := rows0, events0;
        return Err(reclaimed.error);
      }
      ghost var issued;
      r, issued := LeaseReady(request);
      if r.Err? {
        rows, events := rows0, events0;
        return;
      }
      DoAllConcat(manifest, db0, reclaimed.value, issued);
    }

    method HeartbeatLease(c: CellId, worker: string, token: string, seconds: int, at: int)
      returns (r: Result<Ticket, Error>)
      requires Valid()
      modifies this
      ensures Valid()
      ensures Contents() == Step(manifest, old(Contents()), Heartbeat(c, worker, token, seconds, at))
      ensures match Plan(manifest, old(Contents()), Heartbeat(c, worker, token, seconds, at))
        case Err(e) => r == Err(e)
        case Ok(_) => r.Ok? && c < |rows| && r.value == LeaseOf(manifest, rows[c], c)
      ensures var may := Renewable(manifest, old(Contents()), c, worker, token, seconds, at);
        && (r.Ok? <==> may)
        && Contents() ==
             if may then Renewed(manifest, old(Contents()), c, worker, token, seconds, at) else old(Contents())
      ensures r.Ok? && rows[c].leasedAt.Some? ==>
        r.value == Ticket(c, worker, token, rows[c].leasedAt.value, rows[c].expires.value, rows[c].attempts,
                          Price(manifest.cells[c]))
    {
      HeartbeatMeans(manifest, Contents(), c, worker, token, seconds, at);
      if seconds < 1 {
        return Err(BadArgument);
      }
      var problem := CheckLease(c, worker, token, at);
      if problem.Some? {
        return Err(problem.value);
      }
      var row := rows[c];
      var target := at + seconds;
      var extended := if row.expires.value > target then row.expires.value else target;
      var estimate := if manifest.cells[c].estimate.Some? then manifest.cells[c].estimate.value else 0.0;
      var inserted := InsertEvent(Draft(c, Leased, Leased, at, Some(worker), Some(token), row.attempts,
                                        "lease-heartbeat:" + worker, estimate, 0.0, None));
      if inserted.Err? {
        return Err(inserted.error);
      }
      rows := rows[c := row.(expires := Some(extended), reason := Some("lease-heartbeat:" + worker), updated := at)];
      DoAllOne(manifest, old(Contents()), Renew(c, at, seconds, worker, token));
      r := Ok(Ticket(c, worker, token, StartOf(row), extended, row.attempts, estimate));
    }

    method CompleteLease(c: CellId, worker: string, token: string, next: CellState, reason: string,
                         actual: real, artifact: Option<string>, at: int)
      returns (r: Result<Event, Error>)
      requires Valid()
      modifies this
      ensures Valid()
      ensures Contents()
           == Step(manifest, old(Contents()), Complete(c, worker, token, next, reason, actual, artifact, at))
      ensures match Plan(manifest, old(Contents()), Complete(c, worker, token, next, reason, actual, artifact, at))
        case Err(e) => r == Err(e)
        case Ok(_) => r.Ok? && events == old(events) + [r.value]
      ensures r.Ok? <==> Completable(manifest, old(Contents()), c, worker, token, next, reason, actual, artifact, at)
      ensures Contents() ==
        if r.Ok? then Completed(manifest, old(Contents()), c, worker, token, next, reason, actual, artifact, at)
        else old(Contents())
    {
      CompleteMeans(manifest, Contents(), c, worker, token, next, reason, actual, artifact, at);
      if next == Leased || Blocked(next) || actual < 0.0 {
        return Err(BadArgument);
      }
      hide LeaseError, Objection, DoAll, PlanLease, PlanReclaim;
      var problem := CheckLease(c, worker, token, at);
      if problem.Some? {
        return Err(problem.value);
      }
      LeaseErrorNone(Contents(), c, worker, token, at);
      var row := rows[c];
      var estimate := if manifest.cells[c].estimate.Some? then manifest.cells[c].estimate.value else 0.0;
      r := InsertEvent(Draft(c, Leased, next, at, Some(worker), Some(token), row.attempts, reason, estimate, actual,
                             artifact));
      if r.Ok? {
        rows := rows[c := row.(state := next, actual := row.actual + actual, artifact := artifact,
                               reason := Some(reason),
                               owner := None, token := None, leasedAt := None, expires := None, updated := at)];
        DoAllOne(manifest, old(Contents()), Finish(c, at, worker, token, next, reason, actual, artifact));
      }
    }

    method RequeueCell(c: CellId, reason: string, requestedBy: Option<string>,
                       at: int) returns (r: Result<Event, Error>)
      requires Valid()
      modifies this
      ensures Valid()
      ensures Contents() == Step(manifest, old(Contents()), RequeueFailed(c, reason, requestedBy, at))
      ensures match Plan(manifest, old(Contents()), RequeueFailed(c, reason, requestedBy, at))
        case Err(e) => r == Err(e)
        case Ok(_) => r.Ok? && events == old(events) + [r.value]
      ensures var may := Requeueable(manifest, old(Contents()), c, reason);
        && (r.Ok? <==> may)
        && Contents() ==
             if may then Requeued(manifest, old(Contents()), c, reason, requestedBy, at) else old(Contents())
    {
      RequeueMeans(manifest, Contents(), c, reason, requestedBy, at);
      if c >= |rows| {
        return Err(UnknownCell);
      }
      var row := rows[c];
      var estimate := if manifest.cells[c].estimate.Some? then manifest.cells[c].estimate.value else 0.0;
      r := InsertEvent(Draft(c, row.state, Ready, at, requestedBy, None, row.attempts, reason, estimate, 0.0, None));
      if r.Ok? {
        rows := rows[c := row.(state := Ready, reason := Some(reason), updated := at, artifact := None)];
        DoAllOne(manifest, old(Contents()), Requeue(c, at, requestedBy, reason));
      }
    }

    method CheckLease(c: CellId, worker: string, token: string, at: int) returns (problem: Option<Error>)
      ensures problem == LeaseError(Contents(), c, worker, token, at)
    {
      if c >= |rows| {
        return Some(UnknownCell);
      }
      var row := rows[c];
      if row.state != Leased {
        return Some(NotLeased);
      }
      if row.owner != Some(worker) || row.token != Some(token) {
        return Some(NotOwner);
      }
      if row.expires.None? {
        return Some(BadArgument);
      }
      if row.expires.value <= at {
        return Some(LeaseExpired);
      }
      return None;
    }

    method GetStatus(at: int) returns (s: Status)
      requires Valid()
      ensures s.cells == |rows| && s.events == |events|
      ensures s.spent == Money.Round8(Spent(rows)) && s.reserved == Money.Round8(Reserved(manifest, rows))
      ensures s.remaining == if manifest.hardBudget.None? then None
                             else Some(Money.Round8(manifest.hardBudget.value - Spent(rows) - Reserved(manifest, rows)))
      ensures s.expired == Count(ExpiredFlags(rows, at))
      ensures s.terminal == Count(TerminalFlags(rows)) && s.active == Count(LeasedFlags(rows))
      ensures s.budgetExceeded <==> manifest.hardBudget.Some? && Spent(rows) > manifest.hardBudget.value
      ensures s.complete <==> AllTerminal(rows) && !s.budgetExceeded
    {
      hide Spent, Reserved, Money.Round8, Count, ExpiredFlags, TerminalFlags, LeasedFlags, AllTerminal;
      StatusStart(rows, at);
      var expired, terminal, blocked, ready, active := 0, 0, 0, 0, 0;
      for i := 0 to |rows|
        invariant expired == Count(ExpiredFlags(rows[..i], at))
        invariant terminal == Count(TerminalFlags(rows[..i])) && active == Count(LeasedFlags(rows[..i]))
        invariant terminal + blocked + ready + active == i
        invariant terminal == i <==> AllTerminal(rows[..i])
        invariant blocked >= 0 && ready >= 0
      {
        var row := rows[i];
        StatusSnoc(rows, i, at);
        if row.state == Leased {
          active := active + 1;
          if row.expires.Some? && row.expires.value <= at {
            expired := expired + 1;
          }
        } else if row.state == Ready {
          ready := ready + 1;
        } else if Blocked(row.state) {
          blocked := blocked + 1;
        } else {
          terminal := terminal + 1;
        }
      }
      assert rows[..|rows|] == rows;
      var spent, reserved := Spent(rows), Reserved(manifest, rows);
      var exceeded := manifest.hardBudget.Some? && spent > manifest.hardBudget.value;
      var complete := terminal == |rows| && blocked == 0 && ready == 0 && active == 0 && !exceeded;
      var remaining := if manifest.hardBudget.None? then None
                       else Some(Money.Round8(manifest.hardBudget.value - spent - reserved));
      s := Status(|rows|, |events|, Money.Round8(spent), Money.Round8(reserved), remaining, active, expired, terminal,
                  complete, exceeded);
    }

    /** The replay loop of the reconciler: it stops at the first event that fails a check. */
    method Replay() returns (k: nat, states: seq<CellState>, costs: seq<real>)
      ensures k == Accepted(manifest, events)
      ensures |states| == |costs| == |manifest.cells|
      ensures forall c | 0 <= c < |states| :: states[c] == StateAfter(manifest, events[..k], c)
      ensures forall c | 0 <= c < |costs| :: costs[c] == LoggedCost(events[..k], c)
    {
      var n := |manifest.cells|;
      states := seq(n, i requires 0 <= i < n => manifest.cells[i].initial);
      costs := seq(n, i => 0.0);
      var previous: Option<Hash> := None;
      k := 0;
      while k < |events|
        invariant 0 <= k <= |events|
        invariant ChainValid(manifest, events[..k])
        invariant |states| == |costs| == n
        invariant forall c | 0 <= c < n :: states[c] == StateAfter(manifest, events[..k], c)
        invariant forall c | 0 <= c < n :: costs[c] == LoggedCost(events[..k], c)
        invariant previous == LastHash(events[..k])
      {
        var e := events[k];
        var c := e.columns.cell;
        if e.columns.sequence != k || e.columns.parent != previous || e.stored != e.columns
           || e.hash != ContentHash(e.stored) || c >= n || states[c] != e.columns.previous
           || !Allowed(e.columns.previous, e.columns.next)
        {
          AcceptedPrefix(manifest, events, k);
          return;
        }
        ChainPrefixSnoc(manifest, events, k);
        assert events[..k + 1][..k] == events[..k];
        states := states[c := e.columns.next];
        costs := costs[c := costs[c] + e.columns.actual];
        previous := Some(e.hash);
        k := k + 1;
      }
      AcceptedPrefix(manifest, events, k);
    }

    /** Replays the log against the table. Nothing is assumed about either. */
    method Reconcile() returns (r: Report)
      ensures r.chainValid <==> ChainValid(manifest, events)
      ensures r.statesMatch <==> StatesReplayed(manifest, Contents())
      ensures r.costsMatch <==> CostsReplayed(manifest, Contents())
      ensures r.leasesValid <==> LeasesSound(manifest, Contents())
      ensures r.valid <==> Reconciled(manifest, Contents())
      ensures r.eventCount == |events|
      ensures r.storedCost == Money.Round8(Spent(rows))
      ensures r.replayedCost == Money.Round8(Sum(ReplayedCosts(manifest, Contents())))
    {
      hide Linked, Spent, Sum, Money.Round8, StateAfter;
      var n := |manifest.cells|;
      var k, states, costs := Replay();
      var chainValid := k == |events|;
      AcceptedFacts(manifest, events);
      assert costs == ReplayedCosts(manifest, Contents());

      var statesMatch, costsMatch, leasesValid := |rows| == n, true, true;
      var shared := if |rows| < n then |rows| else n;
      for c := 0 to shared
        invariant statesMatch <==> |rows| == n && forall j | 0 <= j < c :: rows[j].state == states[j]
        invariant costsMatch <==> forall j | 0 <= j < c :: AbsReal(rows[j].actual - costs[j]) <= Money.UNIT
        invariant leasesValid <==> forall j | 0 <= j < c :: LeaseFieldsSound(rows[j])
      {
        var row := rows[c];
        if row.state != states[c] {
          statesMatch := false;
        }
        if AbsReal(row.actual - costs[c]) > Money.UNIT {
          costsMatch := false;
        }
        if row.state == Leased && (row.owner.None? || row.token.None? || row.leasedAt.None? || row.expires.None?) {
          leasesValid := false;
        }
        if row.state != Leased && (row.owner.Some? || row.token.Some? || row.leasedAt.Some? || row.expires.Some?) {
          leasesValid := false;
        }
      }
      r := Report(chainValid && statesMatch && costsMatch && leasesValid, chainValid, statesMatch, costsMatch,
                  leasesValid, |events|, Money.Round8(Sum(costs)), Money.Round8(Spent(rows)));
    }
  }

  // ---------------------------------------------------------------- helpers of the proofs above

  /** The reclaim loop has dealt with order[..i], having expired these leases, and reached db'. */
  ghost predicate Reclaiming(m: Manifest, db: Db, order: seq<CellId>, i: nat, at: int, done: seq<Action>, db': Db) {
    && Fits(m, db) && order == KeyOrder(m.cells) && i <= |order|
    && done == Expirations(db, order[..i], at)
    && db' == DoAll(m, db, done)
    && !AnyObjection(m, db, done)
    && (forall j | i <= j < |order| :: db'.rows[order[j]] == db.rows[order[j]])
  }

  lemma ReclaimStart(m: Manifest, db: Db, order: seq<CellId>, at: int)
    requires Fits(m, db) && order == KeyOrder(m.cells)
    ensures Reclaiming(m, db, order, 0, at, [], db)
  {
  }

  lemma ReclaimEnd(m: Manifest, db: Db, order: seq<CellId>, at: int, done: seq<Action>, db': Db)
    requires Reclaiming(m, db, order, |order|, at, done, db')
    ensures PlanReclaim(m, db, at) == Ok(done) && db' == DoAll(m, db, done)
  {
    assert order[..|order|] == order;
  }

  lemma ReclaimSkip(m: Manifest, db: Db, order: seq<CellId>, i: nat, at: int, done: seq<Action>, db': Db)
    requires Reclaiming(m, db, order, i, at, done, db') && i < |order|
    requires !Expired(db'.rows[order[i]], at)
    ensures Reclaiming(m, db, order, i + 1, at, done, db')
  {
    hide DoAll, AnyObjection, Expired;
    assert order[..i + 1][..i] == order[..i];
  }

  lemma ReclaimTake(m: Manifest, db: Db, order: seq<CellId>, i: nat, at: int, done: seq<Action>, db': Db)
    requires Reclaiming(m, db, order, i, at, done, db') && i < |order|
    requires Expired(db'.rows[order[i]], at) && Objection(DraftFor(m, db', Expire(order[i], at))).None?
    ensures Reclaiming(m, db, order, i + 1, at, done + [Expire(order[i], at)], Do(m, db', Expire(order[i], at)))
  {
    hide DoAll, Expired, Objection, EventFor, KeyOrder;
    var a := Expire(order[i], at);
    assert order[..i + 1][..i] == order[..i];
    assert DraftFor(m, db', a) == DraftFor(m, db, a);
    DoAllConcat(m, db, done, [a]);
    DoAllOne(m, db', a);
    KeyOrderFacts(m.cells);
  }

  lemma ReclaimFail(m: Manifest, db: Db, order: seq<CellId>, i: nat, at: int, done: seq<Action>, db': Db)
    requires Reclaiming(m, db, order, i, at, done, db') && i < |order|
    requires Expired(db'.rows[order[i]], at) && Objection(DraftFor(m, db', Expire(order[i], at))).Some?
    ensures PlanReclaim(m, db, at) == Err(NegativeCost)
  {
    hide DoAll, Expired, Objection;
    var a := Expire(order[i], at);
    assert order[..i + 1][..i] == order[..i];
    ExpirationsPrefix(db, order, i + 1, at);
    assert DraftFor(m, db', a) == DraftFor(m, db, a);
    assert Expirations(db, order, at)[|done|] == a;
  }

  lemma {:induction false} ExpirationsPrefix(db: Db, order: seq<CellId>, k: nat, at: int)
    requires forall i | 0 <= i < |order| :: order[i] < |db.rows|
    requires k <= |order|
    ensures Expirations(db, order[..k], at) <= Expirations(db, order, at)
  {
    if k < |order| {
      var n := |order| - 1;
      ExpirationsPrefix(db, order[..n], k, at);
      assert order[..n][..k] == order[..k];
    } else {
      assert order[..k] == order;
    }
  }

  ghost function LaterBy(i: nat, r: Option<(string, nat)>): Option<(string, nat)> {
    match r
    case None => None
    case Some((token, n)) => Some((token, n + i))
  }

  lemma FirstUsableStep(db: Db, draws: seq<string>, i: nat)
    requires i < |draws|
    ensures FirstUsable(db, draws[i..]) ==
      if draws[i] != "" && !TokenSeen(db, Labelled(draws[i])) then Some((Labelled(draws[i]), 1))
      else LaterBy(1, FirstUsable(db, draws[i + 1..]))
  {
    hide TokenSeen;
    assert draws[i..][1..] == draws[i + 1..];
  }

  lemma NoneUsable(db: Db, draws: seq<string>)
    requires draws == []
    ensures FirstUsable(db, draws) == None
  {
  }

  lemma SeenIs(db: Db, token: string)
    ensures TokenSeen(db, token) <==>
      || (exists j | 0 <= j < |db.rows| :: db.rows[j].token == Some(token))
      || (exists j | 0 <= j < |db.events| :: db.events[j].columns.token == Some(token))
  {
  }

  /** The greedy pass has dealt with order[..i] and issued these leases, reaching db'. */
  ghost predicate Progress(m: Manifest, db: Db, request: LeaseRequest, order: seq<CellId>, i: nat,
                           issued: seq<Action>, db': Db, drawn: nat)
  {
    && Fits(m, db) && i <= |order|
    && (forall j | 0 <= j < |order| :: order[j] < |db.rows|)
    && InRange(db, issued) && db' == DoAll(m, db, issued)
    && PlanGreedy(m, db, request, order, 0, 0)
       == Prepend(issued, PlanGreedy(m, db', request, order[i..], |issued|, drawn))
  }

  lemma ProgressStart(m: Manifest, db: Db, request: LeaseRequest, order: seq<CellId>)
    requires Fits(m, db) && forall j | 0 <= j < |order| :: order[j] < |db.rows|
    ensures Progress(m, db, request, order, 0, [], db, 0)
  {
    PrependNothing(PlanGreedy(m, db, request, order, 0, 0));
    assert order[0..] == order;
  }

  lemma ProgressSkip(m: Manifest, db: Db, request: LeaseRequest, order: seq<CellId>, i: nat,
                     issued: seq<Action>, db': Db, drawn: nat)
    requires Progress(m, db, request, order, i, issued, db', drawn) && i < |order| && |issued| < request.limit
    requires Choice(m, db', request, order[i], drawn) == Ok(None)
    ensures Progress(m, db, request, order, i + 1, issued, db', drawn)
  {
    assert order[i..][1..] == order[i + 1..];
  }

  lemma ProgressFail(m: Manifest, db: Db, request: LeaseRequest, order: seq<CellId>, i: nat,
                     issued: seq<Action>, db': Db, drawn: nat)
    requires Progress(m, db, request, order, i, issued, db', drawn) && i < |order| && |issued| < request.limit
    requires Choice(m, db', request, order[i], drawn).Err?
    ensures PlanGreedy(m, db, request, order, 0, 0) == Err(Choice(m, db', request, order[i], drawn).error)
  {
  }

  lemma ProgressTake(m: Manifest, db: Db, request: LeaseRequest, order: seq<CellId>, i: nat,
                     issued: seq<Action>, db': Db, drawn: nat, a: Action, drawn': nat)
    requires Progress(m, db, request, order, i, issued, db', drawn) && i < |order| && |issued| < request.limit
    requires Choice(m, db', request, order[i], drawn) == Ok(Some((a, drawn'))) && a.cell < |db.rows|
    ensures Progress(m, db, request, order, i + 1, issued + [a], Do(m, db', a), drawn')
  {
    hide Choice, DoAll, Do;
    assert order[i..][1..] == order[i + 1..];
    var rest := PlanGreedy(m, Do(m, db', a), request, order[i + 1..], |issued| + 1, drawn');
    assert PlanGreedy(m, db', request, order[i..], |issued|, drawn) == Prepend([a], rest);
    ExtendPlan(m, db, issued, a, rest);
  }

  lemma ExtendPlan(m: Manifest, db: Db, issued: seq<Action>, a: Action, rest: Result<seq<Action>, Error>)
    requires InRange(db, issued) && a.cell < |db.rows|
    ensures Prepend(issued + [a], rest) == Prepend(issued, Prepend([a], rest))
    ensures DoAll(m, db, issued + [a]) == Do(m, DoAll(m, db, issued), a)
  {
    hide DoAll, Do;
    DoAllConcat(m, db, issued, [a]);
    DoAllOne(m, DoAll(m, db, issued), a);
    PrependSnoc(issued, a, rest);
  }

  lemma ProgressEnd(m: Manifest, db: Db, request: LeaseRequest, order: seq<CellId>, i: nat,
                    issued: seq<Action>, db': Db, drawn: nat)
    requires Progress(m, db, request, order, i, issued, db', drawn) && (i == |order| || |issued| >= request.limit)
    ensures PlanGreedy(m, db, request, order, 0, 0) == Ok(issued) && db' == DoAll(m, db, issued)
  {
    assert issued + [] == issued;
  }

  /** The counter holds the live leases of every model that occurs in the manifest. */
  ghost predicate CountsActive(m: Manifest, rows: seq<Row>, active: map<string, nat>) {
    |rows| == |m.cells| &&
    forall c | 0 <= c < |m.cells| ::
      m.cells[c].model in active && active[m.cells[c].model] == Active(m, rows, m.cells[c].model)
  }

  ghost predicate TotalsOf(m: Manifest, rows: seq<Row>, pass: Tally) {
    CountsActive(m, rows, pass.active) && pass.spent == Spent(rows) && pass.reserved == Reserved(m, rows)
  }

  /** The running totals are right, and so are the tickets for the events logged since base. */
  ghost predicate PassOf(m: Manifest, db: Db, base: nat, request: LeaseRequest, pass: Tally) {
    && TotalsOf(m, db.rows, pass)
    && base <= |db.events| && pass.tickets == TicketsFrom(m, db.events, base, request.seconds)
  }

  lemma IssueTotals(m: Manifest, db: Db, a: Action, pass: Tally)
    requires Fits(m, db) && a.Issue? && a.cell < |db.rows| && db.rows[a.cell].state.Ready?
    requires m.cells[a.cell].estimate.Some?
    requires TotalsOf(m, db.rows, pass)
    ensures var model := m.cells[a.cell].model;
      TotalsOf(m, Do(m, db, a).rows, pass.(reserved := pass.reserved + m.cells[a.cell].estimate.value,
                                         active := pass.active[model := pass.active[model] + 1]))
  {
    TotalsAfter(m, db.rows, a.cell, RowFor(db, a));
    forall c | 0 <= c < |m.cells|
      ensures Active(m, Do(m, db, a).rows, m.cells[c].model)
           == Active(m, db.rows, m.cells[c].model) + (if m.cells[c].model == m.cells[a.cell].model then 1 else 0)
    {
      ActiveAfter(m, db.rows, a.cell, RowFor(db, a), m.cells[c].model);
    }
  }

  lemma StatusStart(rows: seq<Row>, at: int)
    ensures Count(ExpiredFlags(rows[..0], at)) == Count(TerminalFlags(rows[..0])) == Count(LeasedFlags(rows[..0])) == 0
    ensures AllTerminal(rows[..0])
  {
  }

  lemma StatusSnoc(rows: seq<Row>, i: nat, at: int)
    requires i < |rows|
    ensures Count(ExpiredFlags(rows[..i + 1], at))
         == Count(ExpiredFlags(rows[..i], at)) + (if Expired(rows[i], at) then 1 else 0)
    ensures Count(TerminalFlags(rows[..i + 1]))
         == Count(TerminalFlags(rows[..i])) + (if Terminal(rows[i].state) then 1 else 0)
    ensures Count(LeasedFlags(rows[..i + 1]))
         == Count(LeasedFlags(rows[..i])) + (if rows[i].state.Leased? then 1 else 0)
    ensures AllTerminal(rows[..i + 1]) <==> AllTerminal(rows[..i]) && Terminal(rows[i].state)
  {
    var more := rows[..i + 1];
    assert ExpiredFlags(more, at)[..i] == ExpiredFlags(rows[..i], at);
    assert TerminalFlags(more)[..i] == TerminalFlags(rows[..i]);
    assert LeasedFlags(more)[..i] == LeasedFlags(rows[..i]);
    assert rows[..i] == more[..i];
    if AllTerminal(more) {
      assert Terminal(more[i].state);
      forall j | 0 <= j < i ensures Terminal(rows[..i][j].state) {
        assert Terminal(more[j].state);
      }
    }
  }

  lemma LeaseErrorNone(db: Db, c: CellId, worker: string, token: string, at: int)
    requires LeaseError(db, c, worker, token, at).None?
    ensures c < |db.rows| && db.rows[c].state.Leased? && Matches(db.rows[c], worker, token)
  {
  }

  lemma TicketsSnoc(m: Manifest, db: Db, a: Action, base: nat, seconds: int)
    requires a.cell < |db.rows| && base <= |db.events|
    ensures var events := Do(m, db, a).events;
      TicketsFrom(m, events, base, seconds)
        == TicketsFrom(m, db.events, base, seconds) + [TicketFrom(m, events[|events| - 1].columns, seconds)]
  {
  }
}
