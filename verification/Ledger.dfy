/** The in-memory campaign ledger: an immutable event tuple, replayed for every question. */
module Ledger {
  import opened Prelude
  import opened Campaign
  import Money
  import Text

  datatype Error = NotContiguous | ChainBroken | UnknownCell | StateMismatch | IllegalTransition | NegativeCost
                 | HashMismatch | BlankReason | ArtifactRequired | BadArgument | NotExecutable

  predicate Allowed(previous: CellState, next: CellState) {
    match previous
    case Ready => next in {Leased, Cancelled}
    case Leased => next in {Ready, Succeeded, Failed, Quarantined, Cancelled}
    case Failed => next == Ready
    case _ => false
  }

  datatype Hash = ContentHash(payload: Payload)

  datatype Payload = Payload(
    sequence: nat,
    cell: CellId,
    previous: CellState,
    next: CellState,
    reason: string,
    cost: real,
    artifact: Option<string>,
    parent: Option<Hash>)

  datatype Event = Event(payload: Payload, hash: Hash)

  function LastHash(events: seq<Event>): Option<Hash> {
    if events == [] then None else Some(events[|events| - 1].hash)
  }

  function StateAfter(m: Manifest, events: seq<Event>, c: CellId): CellState
    requires c < |m.cells|
  {
    if events == [] then m.cells[c].initial
    else
      var last := events[|events| - 1].payload;
      if last.cell == c then last.next else StateAfter(m, events[..|events| - 1], c)
  }

  function States(m: Manifest, events: seq<Event>): (r: seq<CellState>)
    ensures |r| == |m.cells|
  {
    seq(|m.cells|, c requires 0 <= c < |m.cells| => StateAfter(m, events, c))
  }

  function TotalCost(events: seq<Event>): real {
    if events == [] then 0.0 else TotalCost(events[..|events| - 1]) + events[|events| - 1].payload.cost
  }

  /** The replay's complaint about one event, in the order of its checks. */
  function Complaint(m: Manifest, events: seq<Event>, i: nat): Option<Error>
    requires i < |events|
  {
    var e := events[i].payload;
    if e.sequence != i then Some(NotContiguous)
    else if e.parent != LastHash(events[..i]) then Some(ChainBroken)
    else if e.cell >= |m.cells| then Some(UnknownCell)
    else if StateAfter(m, events[..i], e.cell) != e.previous then Some(StateMismatch)
    else if !Allowed(e.previous, e.next) then Some(IllegalTransition)
    else if e.cost < 0.0 then Some(NegativeCost)
    else if events[i].hash != ContentHash(e) then Some(HashMismatch)
    else None
  }

  ghost predicate Legal(m: Manifest, events: seq<Event>) {
    forall i | 0 <= i < |events| :: Complaint(m, events, i).None?
  }

  /** The first event replay complains about, if any. */
  function FirstComplaint(m: Manifest, events: seq<Event>): (r: Option<Error>)
    ensures r.None? <==> Legal(m, events)
  {
    if events == [] then None
    else
      var n := |events| - 1;
      PrefixComplaints(m, events, n);
      match FirstComplaint(m, events[..n])
      case Some(e) => Some(e)
      case None => Complaint(m, events, n)
  }

  lemma PrefixComplaints(m: Manifest, events: seq<Event>, n: nat)
    requires n <= |events|
    ensures forall i | 0 <= i < n :: Complaint(m, events[..n], i) == Complaint(m, events, i)
    ensures Legal(m, events[..n]) <==> forall i | 0 <= i < n :: Complaint(m, events, i).None?
  {
    forall i | 0 <= i < n ensures Complaint(m, events[..n], i) == Complaint(m, events, i) {
      assert events[..n][..i] == events[..i];
    }
  }

  lemma {:induction false} FirstComplaintAt(m: Manifest, events: seq<Event>, k: nat)
    requires k < |events| && Legal(m, events[..k]) && Complaint(m, events, k).Some?
    ensures FirstComplaint(m, events) == Complaint(m, events, k)
  {
    var n := |events| - 1;
    if k < n {
      assert events[..n][..k] == events[..k];
      PrefixComplaints(m, events, n);
      FirstComplaintAt(m, events[..n], k);
    }
  }

  /** replay_campaign_events: the states and the total cost, or the first complaint. */
  method Replay(m: Manifest, events: seq<Event>) returns (r: Result<(seq<CellState>, real), Error>)
    ensures FirstComplaint(m, events).Some? ==> r == Err(FirstComplaint(m, events).value)
    ensures Legal(m, events) ==> r == Ok((States(m, events), TotalCost(events)))
  {
    var states := seq(|m.cells|, c requires 0 <= c < |m.cells| => m.cells[c].initial);
    var previous: Option<Hash> := None;
    var total := 0.0;
    var i := 0;
    while i < |events|
      invariant 0 <= i <= |events|
      invariant Legal(m, events[..i])
      invariant states == States(m, events[..i])
      invariant previous == LastHash(events[..i])
      invariant total == TotalCost(events[..i])
    {
      var e := events[i].payload;
      if Complaint(m, events, i).Some? {
        FirstComplaintAt(m, events, i);
      }
      if e.sequence != i {
        return Err(NotContiguous);
      }
      if e.parent != previous {
        return Err(ChainBroken);
      }
      if e.cell >= |m.cells| {
        return Err(UnknownCell);
      }
      if states[e.cell] != e.previous {
        return Err(StateMismatch);
      }
      if !Allowed(states[e.cell], e.next) {
        return Err(IllegalTransition);
      }
      if e.cost < 0.0 {
        return Err(NegativeCost);
      }
      if events[i].hash != ContentHash(e) {
        return Err(HashMismatch);
      }
      PrefixComplaints(m, events, i);
      PrefixComplaints(m, events, i + 1);
      assert events[..i + 1][..i] == events[..i];
      states := states[e.cell := e.next];
      total := total + e.cost;
      previous := Some(events[i].hash);
      i := i + 1;
    }
    assert events[..i] == events;
    r := Ok((states, total));
  }

  function NextEvent(events: seq<Event>, c: CellId, previous: CellState, next: CellState, reason: string, cost: real,
                     artifact: Option<string>): Event
  {
    var payload := Payload(|events|, c, previous, next, reason, cost, artifact, LastHash(events));
    Event(payload, ContentHash(payload))
  }

  /** append_campaign_event: a new tuple, or an error. */
  function Append(m: Manifest, events: seq<Event>, c: CellId, next: CellState, reason: string, cost: real,
                  artifact: Option<string>): (r: Result<seq<Event>, Error>)
    ensures r.Ok? <==>
      && Legal(m, events) && c < |m.cells| && Allowed(StateAfter(m, events, c), next)
      && cost >= 0.0 && !Text.Blank(reason) && (next == Succeeded ==> artifact !in {None, Some("")})
    ensures !Legal(m, events) ==> r == Err(FirstComplaint(m, events).value)
    ensures r.Ok? ==>
      && Legal(m, r.value) && |r.value| == |events| + 1 && events <= r.value
      && States(m, r.value) == States(m, events)[c := next] && TotalCost(r.value) == TotalCost(events) + cost
      && var e := r.value[|events|].payload;
         e.cell == c && e.reason == reason && e.artifact == artifact && e.cost == cost
  {
    var complaint := FirstComplaint(m, events);
    if complaint.Some? then Err(complaint.value)
    else if c >= |m.cells| then Err(UnknownCell)
    else if !Allowed(StateAfter(m, events, c), next) then Err(IllegalTransition)
    else if cost < 0.0 then Err(NegativeCost)
    else if Text.Blank(reason) then Err(BlankReason)
    else if next == Succeeded && artifact in {None, Some("")} then Err(ArtifactRequired)
    else
      var e := NextEvent(events, c, StateAfter(m, events, c), next, reason, cost, artifact);
      LegalSnoc(m, events, e);
      assert States(m, events + [e]) == States(m, events)[c := next];
      Ok(events + [e])
  }

  lemma LegalSnoc(m: Manifest, events: seq<Event>, e: Event)
    ensures Legal(m, events + [e]) <==> Legal(m, events) && Complaint(m, events + [e], |events|).None?
    ensures (events + [e])[..|events|] == events
  {
    var all := events + [e];
    assert all[..|events|] == events && all[..|all|] == all;
    PrefixComplaints(m, all, |events|);
  }

  /** Two ledgers accepted by replay with the same last hash are equal in every field. */
  lemma {:induction false} HeadHashCommits(m: Manifest, events: seq<Event>, m': Manifest, events': seq<Event>)
    requires Legal(m, events) && Legal(m', events')
    requires events != [] && events' != []
    requires events[|events| - 1].hash == events'[|events'| - 1].hash
    ensures events == events'
  {
    var n, n' := |events| - 1, |events'| - 1;
    assert Complaint(m, events, n).None? && Complaint(m', events', n').None?;
    assert events[n] == events'[n'] && n == n';
    assert events == events[..n] + [events[n]] && events' == events'[..n] + [events'[n]];
    if n > 0 {
      PrefixComplaints(m, events, n);
      PrefixComplaints(m', events', n);
      HeadHashCommits(m, events[..n], m', events'[..n]);
    }
  }

  // ---------------------------------------------------------------- scheduling

  datatype Request = Request(worker: string, limit: int, stage: Option<string>, model: Option<string>)

  function ReservationsOf(m: Manifest, states: seq<CellState>): seq<real> {
    seq(|states|, i requires 0 <= i < |states| => if states[i].Leased? then EstimateOrZero(m, i) else 0.0)
  }

  function ActiveFlagsOf(m: Manifest, states: seq<CellState>, model: string): seq<bool>
    requires |states| == |m.cells|
  {
    seq(|states|, i requires 0 <= i < |states| => states[i].Leased? && m.cells[i].model == model)
  }

  predicate Candidate(m: Manifest, states: seq<CellState>, request: Request, c: CellId)
    requires |states| == |m.cells| && c < |states|
  {
    && states[c].Ready?
    && (request.stage.Some? ==> m.cells[c].stage == request.stage.value)
    && (request.model.Some? ==> m.cells[c].model == request.model.value)
  }

  predicate PassedOver(m: Manifest, states: seq<CellState>, spent: real, c: CellId)
    requires |states| == |m.cells| && c < |states|
  {
    || Count(ActiveFlagsOf(m, states, m.cells[c].model)) >= m.maxParallelPerModel
    || m.cells[c].estimate.None?
    || (m.hardBudget.Some? &&
          spent + Sum(ReservationsOf(m, states)) + EstimateOrZero(m, c) > m.hardBudget.value)
  }

  /** The greedy choice of lease_ready_cells, totals being recomputed after every pick. */
  function Pick(m: Manifest, states: seq<CellState>, spent: real, request: Request, order: seq<CellId>, taken: nat)
    : (r: seq<CellId>)
    requires |states| == |m.cells|
    requires forall i | 0 <= i < |order| :: order[i] < |states|
    ensures forall i | 0 <= i < |r| :: r[i] < |states|
    decreases |order|
  {
    if order == [] || taken >= request.limit then []
    else
      var c := order[0];
      if !Candidate(m, states, request, c) || PassedOver(m, states, spent, c) then
        Pick(m, states, spent, request, order[1..], taken)
      else
        [c] + Pick(m, states[c := Leased], spent, request, order[1..], taken + 1)
  }

  function AppendLeases(m: Manifest, events: seq<Event>, worker: string, picks: seq<CellId>): Result<seq<Event>, Error>
  {
    if picks == [] then Ok(events)
    else
      match AppendLeases(m, events, worker, picks[..|picks| - 1])
      case Err(e) => Err(e)
      case Ok(updated) => Append(m, updated, picks[|picks| - 1], Leased, "worker-lease:" + worker, 0.0, None)
  }

  /** lease_ready_cells as a function: the longer ledger and the picked cells, or an error. */
  function LeaseReady(m: Manifest, events: seq<Event>, request: Request): Result<(seq<Event>, seq<CellId>), Error> {
    if Text.Blank(request.worker) then Err(BadArgument)
    else if m.hardBudget.None? || BlocksExecution(m.gate) then Err(NotExecutable)
    else if request.limit < 1 then Err(BadArgument)
    else if FirstComplaint(m, events).Some? then Err(FirstComplaint(m, events).value)
    else if m.cells == [] then Err(BadArgument)
    else
      var picks := Pick(m, States(m, events), TotalCost(events), request, KeyOrder(m.cells), 0);
      match AppendLeases(m, events, request.worker, picks)
      case Err(e) => Err(e)
      case Ok(updated) => Ok((updated, picks))
  }

  // ---------------------------------------------------------------- the scheduler as it runs

  /** The counter, the reserve and the picks of the scheduling loop. */
  datatype Tally = Tally(active: map<string, nat>, reserved: real, picks: seq<CellId>)

  ghost predicate Tallied(m: Manifest, states: seq<CellState>, tally: Tally) {
    && |states| == |m.cells|
    && tally.reserved == Sum(ReservationsOf(m, states))
    && (forall c | 0 <= c < |m.cells| ::
          && m.cells[c].model in tally.active
          && tally.active[m.cells[c].model] == Count(ActiveFlagsOf(m, states, m.cells[c].model)))
  }

  lemma TalliedAfter(m: Manifest, states: seq<CellState>, tally: Tally, c: CellId)
    requires Tallied(m, states, tally) && c < |states| && states[c].Ready? && m.cells[c].estimate.Some?
    ensures var model := m.cells[c].model;
      Tallied(m, states[c := Leased],
        Tally(tally.active[model := tally.active[model] + 1], tally.reserved + m.cells[c].estimate.value,
              tally.picks + [c]))
  {
    var states' := states[c := Leased];
    assert ReservationsOf(m, states') == ReservationsOf(m, states)[c := EstimateOrZero(m, c)];
    SumUpdate(ReservationsOf(m, states), c, EstimateOrZero(m, c));
    forall x | 0 <= x < |m.cells|
      ensures Count(ActiveFlagsOf(m, states', m.cells[x].model))
           == Count(ActiveFlagsOf(m, states, m.cells[x].model))
              + (if m.cells[x].model == m.cells[c].model then 1 else 0)
    {
      var model := m.cells[x].model;
      assert ActiveFlagsOf(m, states', model) == ActiveFlagsOf(m, states, model)[c := m.cells[c].model == model];
      CountUpdate(ActiveFlagsOf(m, states, model), c, m.cells[c].model == model);
    }
  }

  /** The scheduling loop has dealt with order[..i], having marked its picks as leased. */
  ghost predicate PickProgress(m: Manifest, spent: real, request: Request, order: seq<CellId>, i: nat,
                               start: seq<CellState>, states: seq<CellState>, picks: seq<CellId>)
  {
    && |start| == |states| == |m.cells| && i <= |order|
    && (forall j | 0 <= j < |order| :: order[j] < |states|)
    && Pick(m, start, spent, request, order, 0) == picks + Pick(m, states, spent, request, order[i..], |picks|)
  }

  lemma PickStep(m: Manifest, spent: real, request: Request, order: seq<CellId>, i: nat,
                 start: seq<CellState>, states: seq<CellState>, picks: seq<CellId>)
    requires PickProgress(m, spent, request, order, i, start, states, picks) && i < |order| && |picks| < request.limit
    ensures var c := order[i];
      if !Candidate(m, states, request, c) || PassedOver(m, states, spent, c) then
        PickProgress(m, spent, request, order, i + 1, start, states, picks)
      else
        PickProgress(m, spent, request, order, i + 1, start, states[c := Leased], picks + [c])
  {
    hide Candidate, PassedOver;
    var c := order[i];
    assert order[i..][1..] == order[i + 1..];
    var rest := Pick(m, states[c := Leased], spent, request, order[i + 1..], |picks| + 1);
    assert picks + ([c] + rest) == picks + [c] + rest;
  }

  method StartTally(m: Manifest, states: seq<CellState>) returns (tally: Tally)
    requires |states| == |m.cells|
    ensures Tallied(m, states, tally) && tally.picks == []
  {
    var active := map model | model in (set i | 0 <= i < |m.cells| :: m.cells[i].model)
      :: Count(ActiveFlagsOf(m, states, model));
    tally := Tally(active, Sum(ReservationsOf(m, states)), []);
  }

  /** lease_ready_cells: replay, one greedy pass with running totals, then the appends. */
  method LeaseReadyCells(m: Manifest, events: seq<Event>, request: Request)
    returns (r: Result<(seq<Event>, seq<CellId>), Error>)
    ensures r == LeaseReady(m, events, request)
  {
    hide Append, Pick, Legal, States, TotalCost, KeyOrder, Text.Blank;
    if Text.Blank(request.worker) {
      return Err(BadArgument);
    }
    if m.hardBudget.None? || BlocksExecution(m.gate) {
      return Err(NotExecutable);
    }
    if request.limit < 1 {
      return Err(BadArgument);
    }
    var replayed := Replay(m, events);
    if replayed.Err? {
      return Err(replayed.error);
    }
    if m.cells == [] {
      // next_ready_cells is asked for as many cells as there are, and rejects zero.
      return Err(BadArgument);
    }
    var picks := PickLoop(m, replayed.value.0, replayed.value.1, request);
    var updated := events;
    var i := 0;
    while i < |picks|
      invariant 0 <= i <= |picks|
      invariant AppendLeases(m, events, request.worker, picks[..i]) == Ok(updated)
    {
      assert picks[..i + 1][..i] == picks[..i];
      var longer := Append(m, updated, picks[i], Leased, "worker-lease:" + request.worker, 0.0, None);
      if longer.Err? {
        AppendLeasesFails(m, events, request.worker, picks, i + 1);
        return Err(longer.error);
      }
      updated := longer.value;
      i := i + 1;
    }
    assert picks[..i] == picks;
    r := Ok((updated, picks));
  }

  lemma {:induction false} AppendLeasesFails(m: Manifest, events: seq<Event>, worker: string, picks: seq<CellId>,
                                             k: nat)
    requires k <= |picks| && AppendLeases(m, events, worker, picks[..k]).Err?
    ensures AppendLeases(m, events, worker, picks) == AppendLeases(m, events, worker, picks[..k])
  {
    hide Append;
    if k == |picks| {
      assert picks[..k] == picks;
    } else {
      var n := |picks| - 1;
      assert picks[..n][..k] == picks[..k];
      AppendLeasesFails(m, events, worker, picks[..n], k);
    }
  }

  method PickLoop(m: Manifest, start: seq<CellState>, spent: real, request: Request) returns (picks: seq<CellId>)
    requires |start| == |m.cells|
    ensures picks == Pick(m, start, spent, request, KeyOrder(m.cells), 0)
  {
    hide Tallied, Pick, KeyOrder;
    var order := KeyOrder(m.cells);
    var tally := StartTally(m, start);
    ghost var states := start;
    assert order[0..] == order;
    assert [] + Pick(m, start, spent, request, order, 0) == Pick(m, start, spent, request, order, 0);
    var i := 0;
    while i < |order| && |tally.picks| < request.limit
      invariant 0 <= i <= |order|
      invariant PickProgress(m, spent, request, order, i, start, states, tally.picks)
      invariant Tallied(m, states, tally)
      invariant forall j | i <= j < |order| :: states[order[j]] == start[order[j]]
    {
      var c := order[i];
      PickStep(m, spent, request, order, i, start, states, tally.picks);
      var next := Consider(m, start[c], spent, request, c, tally, states);
      if next.Some? {
        KeyOrderFacts(m.cells);
        states := states[c := Leased];
        tally := next.value;
      }
      i := i + 1;
    }
    PickEnd(m, spent, request, order, i, start, states, tally.picks);
    picks := tally.picks;
  }

  lemma PickEnd(m: Manifest, spent: real, request: Request, order: seq<CellId>, i: nat,
                start: seq<CellState>, states: seq<CellState>, picks: seq<CellId>)
    requires PickProgress(m, spent, request, order, i, start, states, picks)
    requires i == |order| || |picks| >= request.limit
    ensures Pick(m, start, spent, request, order, 0) == picks
  {
  }

  /** The loop body: cap, price and budget of one candidate. */
  method Consider(m: Manifest, state: CellState, spent: real, request: Request, c: CellId, tally: Tally,
                  ghost states: seq<CellState>) returns (r: Option<Tally>)
    requires Tallied(m, states, tally) && c < |states| && states[c] == state
    ensures r.None? <==> !Candidate(m, states, request, c) || PassedOver(m, states, spent, c)
    ensures r.Some? ==> Tallied(m, states[c := Leased], r.value) && r.value.picks == tally.picks + [c]
  {
    var cell := m.cells[c];
    if state != Ready || (request.stage.Some? && cell.stage != request.stage.value)
       || (request.model.Some? && cell.model != request.model.value) {
      return None;
    }
    if tally.active[cell.model] >= m.maxParallelPerModel {
      return None;
    }
    if cell.estimate.None? {
      return None;
    }
    if m.hardBudget.Some? && spent + tally.reserved + cell.estimate.value > m.hardBudget.value {
      return None;
    }
    TalliedAfter(m, states, tally, c);
    r := Some(Tally(tally.active[cell.model := tally.active[cell.model] + 1], tally.reserved + cell.estimate.value,
                    tally.picks + [c]));
  }

  // ---------------------------------------------------------------- status

  ghost predicate AllTerminal(states: seq<CellState>) {
    forall c | 0 <= c < |states| :: Terminal(states[c])
  }

  /** What complete means: every cell terminal, and the total within the budget that applies. */
  ghost predicate Complete(m: Manifest, events: seq<Event>, override: Option<real>) {
    var budget := if override.None? then m.hardBudget else override;
    AllTerminal(States(m, events)) && !(budget.Some? && TotalCost(events) > budget.value)
  }

  datatype Status = Status(events: nat, totalCost: real, ready: nat, terminal: nat, budgetExceeded: bool,
                           complete: bool)

  function FlagsOf(states: seq<CellState>, wanted: set<CellState>): seq<bool> {
    seq(|states|, i requires 0 <= i < |states| => states[i] in wanted)
  }

  const TERMINAL := {Succeeded, Failed, Quarantined, Cancelled}

  /** campaign_status: the counters, and completion as the program computes it from them. */
  method CampaignStatus(m: Manifest, events: seq<Event>, override: Option<real>) returns (r: Result<Status, Error>)
    ensures FirstComplaint(m, events).Some? ==> r == Err(FirstComplaint(m, events).value)
    ensures Legal(m, events) ==>
      && r.Ok?
      && r.value.events == |events| && r.value.totalCost == Money.Round8(TotalCost(events))
      && r.value.ready == Count(FlagsOf(States(m, events), {Ready}))
      && r.value.terminal == Count(FlagsOf(States(m, events), TERMINAL))
      && (r.value.complete <==> Complete(m, events, override))
      && (r.value.budgetExceeded <==>
            var budget := if override.None? then m.hardBudget else override;
            budget.Some? && TotalCost(events) > budget.value)
  {
    hide FlagsOf, Count, Legal, TotalCost, States, Money.Round8;
    var replayed := Replay(m, events);
    if replayed.Err? {
      return Err(replayed.error);
    }
    var states, total := replayed.value.0, replayed.value.1;
    var remaining, leased, blocked, terminal := 0, 0, 0, 0;
    NoFlags(states);
    for i := 0 to |states|
      invariant remaining == Count(FlagsOf(states[..i], {Ready}))
      invariant terminal == Count(FlagsOf(states[..i], TERMINAL))
      invariant terminal + remaining + leased + blocked == i && leased >= 0 && blocked >= 0
      invariant terminal == i <==> forall c | 0 <= c < i :: Terminal(states[c])
    {
      FlagsSnoc(states, i, {Ready});
      FlagsSnoc(states, i, TERMINAL);
      if Terminal(states[i]) {
        terminal := terminal + 1;
      } else if states[i] == Ready {
        remaining := remaining + 1;
      } else if states[i] == Leased {
        leased := leased + 1;
      } else {
        blocked := blocked + 1;
      }
    }
    assert states[..|states|] == states;
    var budget := if override.None? then m.hardBudget else override;
    var exceeded := budget.Some? && total > budget.value;
    var complete := remaining == 0 && leased == 0 && blocked == 0 && terminal == |states| && !exceeded;
    r := Ok(Status(|events|, Money.Round8(total), remaining, terminal, exceeded, complete));
  }

  lemma NoFlags(states: seq<CellState>)
    ensures forall wanted :: Count(FlagsOf(states[..0], wanted)) == 0
  {
  }

  lemma FlagsSnoc(states: seq<CellState>, i: nat, wanted: set<CellState>)
    requires i < |states|
    ensures Count(FlagsOf(states[..i + 1], wanted))
         == Count(FlagsOf(states[..i], wanted)) + (if states[i] in wanted then 1 else 0)
  {
    assert FlagsOf(states[..i + 1], wanted)[..i] == FlagsOf(states[..i], wanted);
  }

  // ---------------------------------------------------------------- what replay accepts

  const CHANGES := {
    (Ready, Leased), (Ready, Cancelled),
    (Leased, Ready), (Leased, Succeeded), (Leased, Failed), (Leased, Quarantined), (Leased, Cancelled),
    (Failed, Ready)}

  predicate EventSound(m: Manifest, events: seq<Event>, i: int) {
    0 <= i < |events| &&
    var e := events[i].payload;
    && e.sequence == i
    && e.parent == (if i == 0 then None else Some(events[i - 1].hash))
    && e.cell < |m.cells|
    && e.previous == StateAfter(m, events[..i], e.cell)
    && (e.previous, e.next) in CHANGES
    && e.cost >= 0.0
    && events[i].hash == ContentHash(e)
  }

  /** A ledger is legal exactly when every event passes every check. */
  lemma LegalMeans(m: Manifest, events: seq<Event>)
    ensures Legal(m, events) <==> forall i | 0 <= i < |events| :: EventSound(m, events, i)
  {
    forall i | 0 <= i < |events| ensures Complaint(m, events, i).None? <==> EventSound(m, events, i) {
      assert i > 0 ==> events[..i][|events[..i]| - 1] == events[i - 1];
    }
  }

  /** Which complaint comes first. */
  lemma ComplaintOrder(m: Manifest, events: seq<Event>, i: nat)
    requires i < |events|
    ensures var e, problem := events[i].payload, Complaint(m, events, i);
      var parent := if i == 0 then None else Some(events[i - 1].hash);
      && (e.sequence != i <==> problem == Some(NotContiguous))
      && (e.sequence == i && e.parent != parent <==> problem == Some(ChainBroken))
      && (problem == Some(UnknownCell) ==> e.sequence == i && e.parent == parent && e.cell >= |m.cells|)
      && (problem == Some(StateMismatch) ==>
            e.cell < |m.cells| && e.previous != StateAfter(m, events[..i], e.cell))
      && (problem == Some(IllegalTransition) ==>
            e.cell < |m.cells| && e.previous == StateAfter(m, events[..i], e.cell) && (e.previous, e.next) !in CHANGES)
      && (problem == Some(NegativeCost) ==> (e.previous, e.next) in CHANGES && e.cost < 0.0)
      && (problem == Some(HashMismatch) ==>
            (e.previous, e.next) in CHANGES && e.cost >= 0.0 && events[i].hash != ContentHash(e))
  {
    assert i > 0 ==> events[..i][|events[..i]| - 1] == events[i - 1];
  }
}
