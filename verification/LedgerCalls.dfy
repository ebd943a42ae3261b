/**
 * What the ledger's two writing operations do, read off the tuple before and after: when an append
 * is accepted and what it appends, and which cells a lease call takes.
 */
module LedgerCalls {
  import opened Prelude
  import opened Campaign
  import opened Ledger
  import Text

  // ---------------------------------------------------------------- appending

  /** The last event has these columns, numbered, chained and hashed. */
  ghost predicate Extends(m: Manifest, events: seq<Event>, longer: seq<Event>, c: CellId, previous: CellState,
                          next: CellState, reason: string, cost: real, artifact: Option<string>)
  {
    && |longer| == |events| + 1 && longer[..|events|] == events
    && var parent := if events == [] then None else Some(events[|events| - 1].hash);
       longer[|events|]
         == var payload := Payload(|events|, c, previous, next, reason, cost, artifact, parent);
            Event(payload, ContentHash(payload))
  }

  /** The errors in their order, and otherwise the one event that is appended. */
  lemma AppendMeans(m: Manifest, events: seq<Event>, c: CellId, next: CellState, reason: string, cost: real,
                    artifact: Option<string>)
    requires forall i | 0 <= i < |events| :: EventSound(m, events, i)
    ensures var r := Append(m, events, c, next, reason, cost, artifact);
      var known := c < |m.cells|;
      var allowed := known && (StateAfter(m, events, c), next) in CHANGES;
      && (!known ==> r == Err(UnknownCell))
      && (known && !allowed ==> r == Err(IllegalTransition))
      && (allowed && cost < 0.0 ==> r == Err(NegativeCost))
      && (allowed && cost >= 0.0 && !Text.HasText(reason) ==> r == Err(BlankReason))
      && (allowed && cost >= 0.0 && Text.HasText(reason) ==>
            if next == Succeeded && (artifact == None || artifact == Some("")) then r == Err(ArtifactRequired)
            else r.Ok? && Extends(m, events, r.value, c, StateAfter(m, events, c), next, reason, cost, artifact))
  {
    hide Text.Blank, Text.HasText, StateAfter;
    LegalMeans(m, events);
    Text.BlankMeans(reason);
  }

  // ---------------------------------------------------------------- leasing

  /** The states with these cells leased too. */
  function Leasing(states: seq<CellState>, cells: seq<CellId>): seq<CellState> {
    seq(|states|, c requires 0 <= c < |states| => if c in cells then Leased else states[c])
  }

  function LeasedOf(m: Manifest, states: seq<CellState>, model: string): set<CellId>
    requires |states| == |m.cells|
  {
    set c: CellId | c < |states| && states[c] == Leased && m.cells[c].model == model
  }

  function Price(cell: Cell): real {
    if cell.estimate == None then 0.0 else cell.estimate.value
  }

  function Reserve(m: Manifest, states: seq<CellState>): seq<real>
    requires |states| == |m.cells|
  {
    seq(|states|, c requires 0 <= c < |states| => if states[c] == Leased then Price(m.cells[c]) else 0.0)
  }

  /** Ready, of the stage and model asked for, below its model's cap, priced, and within the budget. */
  ghost predicate Takes(m: Manifest, states: seq<CellState>, spent: real, request: Request, c: CellId) {
    && |states| == |m.cells| && c < |states| && states[c] == Ready
    && (request.stage == None || request.stage == Some(m.cells[c].stage))
    && (request.model == None || request.model == Some(m.cells[c].model))
    && |LeasedOf(m, states, m.cells[c].model)| < m.maxParallelPerModel
    && m.cells[c].estimate != None
    && (m.hardBudget == None || spent + Sum(Reserve(m, states)) + Price(m.cells[c]) <= m.hardBudget.value)
  }

  lemma TakesMeans(m: Manifest, states: seq<CellState>, spent: real, request: Request, c: CellId)
    requires |states| == |m.cells| && c < |states|
    ensures Takes(m, states, spent, request, c)
       <==> Candidate(m, states, request, c) && !PassedOver(m, states, spent, c)
  {
    var flags := ActiveFlagsOf(m, states, m.cells[c].model);
    CountIsSize(flags);
    SameSize(flags, LeasedOf(m, states, m.cells[c].model));
    assert Reserve(m, states) == ReservationsOf(m, states);
  }

  /** Position j comes after exactly the first k of the increasing positions. */
  predicate After(at: seq<nat>, j: nat, k: nat) {
    k <= |at| && (k == 0 || at[k - 1] < j) && (k == |at| || j < at[k])
  }

  predicate Positions(order: seq<CellId>, picks: seq<CellId>, at: seq<nat>) {
    && |at| == |picks|
    && (forall k | 0 <= k < |at| :: at[k] < |order| && order[at[k]] == picks[k])
    && (forall k, l | 0 <= k < l < |at| :: at[k] < at[l])
  }

  /** With k picks made the pass is to take this cell. */
  ghost predicate TakesNext(m: Manifest, states: seq<CellState>, spent: real, request: Request, limit: int,
                            picks: seq<CellId>, k: int, c: CellId)
  {
    0 <= k <= |picks| && k < limit && Takes(m, Leasing(states, picks[..k]), spent, request, c)
  }

  /** Each pick could be taken when the pass came to it, and each cell passed over could not. */
  ghost predicate Greedy(m: Manifest, states: seq<CellState>, spent: real, request: Request, order: seq<CellId>,
                         limit: int, picks: seq<CellId>, at: seq<nat>)
  {
    && Positions(order, picks, at)
    && (forall k | 0 <= k < |picks| :: TakesNext(m, states, spent, request, limit, picks, k, picks[k]))
    && (forall j: nat, k: nat | j < |order| && After(at, j, k) ::
          !TakesNext(m, states, spent, request, limit, picks, k, order[j]))
  }

  function Shifted(at: seq<nat>): seq<nat> {
    seq(|at|, k requires 0 <= k < |at| => at[k] + 1)
  }

  lemma {:induction false} PickMeans(m: Manifest, states: seq<CellState>, spent: real, request: Request,
                                     order: seq<CellId>, taken: nat) returns (at: seq<nat>)
    requires |states| == |m.cells| && forall i | 0 <= i < |order| :: order[i] < |states|
    ensures Greedy(m, states, spent, request, order, request.limit - taken,
                   Pick(m, states, spent, request, order, taken), at)
    decreases |order|
  {
    hide Takes, Candidate, PassedOver, Leasing;
    if order == [] || taken >= request.limit {
      at := [];
    } else {
      var c := order[0];
      TakesMeans(m, states, spent, request, c);
      if !Candidate(m, states, request, c) || PassedOver(m, states, spent, c) {
        var rest := PickMeans(m, states, spent, request, order[1..], taken);
        at := Shifted(rest);
        GreedySkips(m, states, spent, request, order, request.limit - taken,
                    Pick(m, states, spent, request, order, taken), rest);
      } else {
        var rest := PickMeans(m, states[c := Leased], spent, request, order[1..], taken + 1);
        at := [0] + Shifted(rest);
        GreedyTakes(m, states, spent, request, order, request.limit - taken,
                    Pick(m, states[c := Leased], spent, request, order[1..], taken + 1), rest);
      }
    }
  }

  lemma GreedySkips(m: Manifest, states: seq<CellState>, spent: real, request: Request, order: seq<CellId>,
                    limit: int, picks: seq<CellId>, at: seq<nat>)
    requires order != [] && !Takes(m, states, spent, request, order[0])
    requires Greedy(m, states, spent, request, order[1..], limit, picks, at)
    ensures Greedy(m, states, spent, request, order, limit, picks, Shifted(at))
  {
    hide Takes, Leasing;
    NothingMore(states);
    forall j: nat, k: nat | j < |order| && After(Shifted(at), j, k)
      ensures !TakesNext(m, states, spent, request, limit, picks, k, order[j])
    {
      if j == 0 {
        assert k == 0 && picks[..k] == [];
      } else {
        assert After(at, j - 1, k) && order[1..][j - 1] == order[j];
      }
    }
  }

  lemma GreedyTakes(m: Manifest, states: seq<CellState>, spent: real, request: Request, order: seq<CellId>,
                    limit: int, picks: seq<CellId>, at: seq<nat>)
    requires order != [] && limit > 0 && order[0] < |states| && Takes(m, states, spent, request, order[0])
    requires Greedy(m, states[order[0] := Leased], spent, request, order[1..], limit - 1, picks, at)
    ensures Greedy(m, states, spent, request, order, limit, [order[0]] + picks, [0] + Shifted(at))
  {
    hide Takes, Leasing, TakesNext, After, Positions;
    var c := order[0];
    var all, places := [c] + picks, [0] + Shifted(at);
    PositionsMove(order, picks, at);
    forall k | 0 <= k < |all| ensures TakesNext(m, states, spent, request, limit, all, k, all[k]) {
      if k == 0 {
        TakesFirst(m, states, spent, request, limit, all, c);
      } else {
        TakesMoves(m, states, spent, request, limit, c, picks, k, all[k]);
        assert all[k] == picks[k - 1];
      }
    }
    forall j: nat, k: nat | j < |order| && After(places, j, k)
      ensures !TakesNext(m, states, spent, request, limit, all, k, order[j])
    {
      AfterMoves(at, j, k);
      TakesMoves(m, states, spent, request, limit, c, picks, k, order[j]);
      assert order[1..][j - 1] == order[j];
    }
  }

  lemma TakesFirst(m: Manifest, states: seq<CellState>, spent: real, request: Request, limit: int,
                   picks: seq<CellId>, c: CellId)
    requires limit > 0 && Takes(m, states, spent, request, c)
    ensures TakesNext(m, states, spent, request, limit, picks, 0, c)
  {
    hide Takes;
    NothingMore(states);
    assert picks[..0] == [];
  }

  lemma TakesMoves(m: Manifest, states: seq<CellState>, spent: real, request: Request, limit: int,
                   c: CellId, picks: seq<CellId>, k: nat, x: CellId)
    requires c < |states| && 0 < k
    ensures TakesNext(m, states, spent, request, limit, [c] + picks, k, x)
       <==> TakesNext(m, states[c := Leased], spent, request, limit - 1, picks, k - 1, x)
  {
    hide Takes, Leasing;
    if k <= |picks| + 1 {
      LeasingMoves(states, c, picks, k);
    }
  }

  lemma PositionsMove(order: seq<CellId>, picks: seq<CellId>, at: seq<nat>)
    requires order != [] && Positions(order[1..], picks, at)
    ensures Positions(order, [order[0]] + picks, [0] + Shifted(at))
  {
  }

  lemma AfterMoves(at: seq<nat>, j: nat, k: nat)
    requires After([0] + Shifted(at), j, k)
    ensures 0 < k <= |at| + 1 && 0 < j && After(at, j - 1, k - 1)
  {
    var places := [0] + Shifted(at);
    assert places[0] == 0;
    assert k > 1 ==> places[k - 1] == at[k - 2] + 1;
    assert 0 < k <= |at| ==> places[k] == at[k - 1] + 1;
  }

  lemma LeasingMoves(states: seq<CellState>, c: CellId, picks: seq<CellId>, k: nat)
    requires c < |states| && 0 < k <= |picks| + 1
    ensures Leasing(states, ([c] + picks)[..k]) == Leasing(states[c := Leased], picks[..k - 1])
  {
    assert ([c] + picks)[..k] == [c] + picks[..k - 1];
    OneMore(states, c, picks[..k - 1]);
  }

  lemma NothingMore(states: seq<CellState>)
    ensures Leasing(states, []) == states
  {
  }

  lemma OneMore(states: seq<CellState>, c: CellId, cells: seq<CellId>)
    requires c < |states|
    ensures Leasing(states, [c] + cells) == Leasing(states[c := Leased], cells)
  {
  }

  // ---------------------------------------------------------------- the events of a lease call

  /** One event per pick, in order, each a lease of a ready cell at no cost. */
  ghost predicate LeaseEvents(m: Manifest, events: seq<Event>, longer: seq<Event>, worker: string, picks: seq<CellId>) {
    var n := |events|;
    && |longer| == n + |picks| && longer[..n] == events
    && forall k | 0 <= k < |picks| ::
         Extends(m, longer[..n + k], longer[..n + k + 1], picks[k], Ready, Leased, "worker-lease:" + worker, 0.0, None)
  }

  lemma {:induction false} AppendLeasesMeans(m: Manifest, events: seq<Event>, worker: string, picks: seq<CellId>)
    requires Legal(m, events) && Distinct(picks)
    requires forall k | 0 <= k < |picks| :: picks[k] < |m.cells| && States(m, events)[picks[k]] == Ready
    ensures var r := AppendLeases(m, events, worker, picks);
      && r.Ok? && Legal(m, r.value) && LeaseEvents(m, events, r.value, worker, picks)
      && States(m, r.value) == Leasing(States(m, events), picks)
  {
    hide Append, Legal, Extends, StateAfter;
    if picks == [] {
      assert events[..|events|] == events;
    } else {
      var n := |picks| - 1;
      var c := picks[n];
      AppendLeasesMeans(m, events, worker, picks[..n]);
      var before := AppendLeases(m, events, worker, picks[..n]).value;
      assert c !in picks[..n];
      LeaseOne(m, before, worker, c);
      var after := Append(m, before, c, Leased, "worker-lease:" + worker, 0.0, None).value;
      LeaseEventsSnoc(m, events, before, after, worker, picks);
    }
  }

  lemma LeaseOne(m: Manifest, events: seq<Event>, worker: string, c: CellId)
    requires Legal(m, events) && c < |m.cells| && States(m, events)[c] == Ready
    ensures var reason := "worker-lease:" + worker;
      var r := Append(m, events, c, Leased, reason, 0.0, None);
      && r.Ok? && Legal(m, r.value) && States(m, r.value) == States(m, events)[c := Leased]
      && Extends(m, events, r.value, c, Ready, Leased, reason, 0.0, None)
  {
    hide Text.Blank, Legal, StateAfter;
    var reason := "worker-lease:" + worker;
    assert reason[0] == 'w';
    Text.NotBlank(reason);
  }

  lemma LeaseEventsSnoc(m: Manifest, events: seq<Event>, before: seq<Event>, after: seq<Event>, worker: string,
                        picks: seq<CellId>)
    requires picks != [] && LeaseEvents(m, events, before, worker, picks[..|picks| - 1])
    requires Extends(m, before, after, picks[|picks| - 1], Ready, Leased, "worker-lease:" + worker, 0.0, None)
    ensures LeaseEvents(m, events, after, worker, picks)
  {
    var n, e, reason := |events|, |picks| - 1, "worker-lease:" + worker;
    assert after[..|before|] == before && after[..|after|] == after;
    assert after[..n] == before[..n];
    forall k | 0 <= k < |picks|
      ensures Extends(m, after[..n + k], after[..n + k + 1], picks[k], Ready, Leased, reason, 0.0, None)
    {
      if k < e {
        assert after[..n + k] == before[..n + k] && after[..n + k + 1] == before[..n + k + 1];
      } else {
        assert after[..n + k] == before && after[..n + k + 1] == after;
      }
    }
  }

  lemma GreedyPicks(m: Manifest, states: seq<CellState>, spent: real, request: Request, order: seq<CellId>,
                    limit: int, picks: seq<CellId>, at: seq<nat>)
    requires Greedy(m, states, spent, request, order, limit, picks, at) && Distinct(order)
    ensures Distinct(picks) && forall k | 0 <= k < |picks| :: picks[k] < |states| && states[picks[k]] == Ready
  {
    hide After, LeasedOf, Reserve;
    forall k | 0 <= k < |picks| ensures picks[k] < |states| && states[picks[k]] == Ready {
      assert TakesNext(m, states, spent, request, limit, picks, k, picks[k]);
    }
  }

  /** The errors of a lease call in their order, and otherwise the greedy choice and its events. */
  lemma LeaseReadyMeans(m: Manifest, events: seq<Event>, request: Request) returns (at: seq<nat>)
    ensures var r := LeaseReady(m, events, request);
      var named := Text.HasText(request.worker);
      var executable := m.hardBudget != None && m.gate !in {BlockedUnknownPrices, BlockedBudgetExceeded,
                                                            BlockedNoHardBudget};
      var sound := forall i | 0 <= i < |events| :: EventSound(m, events, i);
      && (!named ==> r == Err(BadArgument))
      && (named && !executable ==> r == Err(NotExecutable))
      && (named && executable && request.limit < 1 ==> r == Err(BadArgument))
      && (named && executable && request.limit >= 1 && !sound ==>
            FirstComplaint(m, events).Some? && r == Err(FirstComplaint(m, events).value))
      && (named && executable && request.limit >= 1 && sound ==>
            if m.cells == [] then r == Err(BadArgument)
            else
              && r.Ok? && LeaseEvents(m, events, r.value.0, request.worker, r.value.1)
              && Greedy(m, States(m, events), TotalCost(events), request, KeyOrder(m.cells), request.limit,
                        r.value.1, at))
  {
    hide Text.Blank, Text.HasText, Legal, EventSound, States, TotalCost, KeyOrder, Pick, AppendLeases, LeaseEvents;
    hide Greedy;
    Text.BlankMeans(request.worker);
    LegalMeans(m, events);
    KeyOrderFacts(m.cells);
    at := PickMeans(m, States(m, events), TotalCost(events), request, KeyOrder(m.cells), 0);
    var picks := Pick(m, States(m, events), TotalCost(events), request, KeyOrder(m.cells), 0);
    GreedyPicks(m, States(m, events), TotalCost(events), request, KeyOrder(m.cells), request.limit, picks, at);
    if Legal(m, events) {
      AppendLeasesMeans(m, events, request.worker, picks);
    }
  }
}
