/**
 * What reclaiming and leasing do, column by column: which rows are freed, which cells are leased in
 * which order and under which tokens, and when a lease call is sure to succeed.
 */
module StoreLeasing {
  import opened Prelude
  import opened Campaign
  import opened Store
  import opened StoreRuns
  import opened StoreInvariants
  import opened StoreCalls
  import Money
  import Text

  // ---------------------------------------------------------------- reclaiming

  predicate Due(row: Row, at: int) {
    row.state == Leased && row.expires.Some? && row.expires.value <= at
  }

  function Freed(row: Row, at: int): Row {
    Row(Ready, row.actual, row.attempts, None, None, None, None, row.artifact, Some("lease-expired"), at)
  }

  /** The due cells of a list, in its order. */
  function DueCells(rows: seq<Row>, order: seq<CellId>, at: int): (r: seq<CellId>)
    ensures forall i | 0 <= i < |r| :: r[i] in order && r[i] < |rows|
  {
    if order == [] then []
    else
      var c := order[|order| - 1];
      DueCells(rows, order[..|order| - 1], at) + (if c < |rows| && Due(rows[c], at) then [c] else [])
  }

  /** One expiry event per cell, each from the cell's old row. */
  function ExpiryEvents(m: Manifest, db: Db, due: seq<CellId>, at: int): seq<Event>
    requires forall i | 0 <= i < |due| :: due[i] < |db.rows| && due[i] < |m.cells|
  {
    if due == [] then db.events
    else
      var c := due[|due| - 1];
      var row := db.rows[c];
      Appended(m, ExpiryEvents(m, db, due[..|due| - 1], at), c, Leased, Ready, at, row.owner, row.token, row.attempts,
               "lease-expired", Price(m.cells[c]), 0.0, None)
  }

  function FreedRows(rows: seq<Row>, order: seq<CellId>, at: int): seq<Row> {
    seq(|rows|, c requires 0 <= c < |rows| => if c in order && Due(rows[c], at) then Freed(rows[c], at) else rows[c])
  }

  lemma ExpireMeans(m: Manifest, db: Db, c: CellId, at: int)
    requires Fits(m, db) && c < |db.rows| && Due(db.rows[c], at)
    ensures var row := db.rows[c];
      Do(m, db, Expire(c, at)) ==
        Db(db.rows[c := Freed(row, at)],
           Appended(m, db.events, c, Leased, Ready, at, row.owner, row.token, row.attempts, "lease-expired",
                    Price(m.cells[c]), 0.0, None))
  {
    hide Money.Round8;
  }

  lemma FreedSnoc(rows: seq<Row>, init: seq<CellId>, c: CellId, at: int)
    requires c < |rows| && c !in init
    ensures FreedRows(rows, init, at)[c] == rows[c]
    ensures FreedRows(rows, init + [c], at)
         == if Due(rows[c], at) then FreedRows(rows, init, at)[c := Freed(rows[c], at)] else FreedRows(rows, init, at)
  {
    hide Freed, Due;
    assert forall x :: x in init + [c] <==> x in init || x == c;
  }

  lemma DueSnoc(m: Manifest, db: Db, init: seq<CellId>, c: CellId, at: int)
    requires Fits(m, db) && c < |db.rows|
    ensures var due, more := DueCells(db.rows, init, at), DueCells(db.rows, init + [c], at);
      var before, row := ExpiryEvents(m, db, due, at), db.rows[c];
      ExpiryEvents(m, db, more, at) ==
        if Due(row, at) then Appended(m, before, c, Leased, Ready, at, row.owner, row.token, row.attempts,
                                      "lease-expired", Price(m.cells[c]), 0.0, None)
        else before
  {
    hide Appended, Due;
    var due := DueCells(db.rows, init, at);
    assert (init + [c])[..|init|] == init;
    assert (due + [c])[..|due|] == due;
    assert due + [] == due;
  }

  lemma {:induction false} ExpirationsMean(m: Manifest, db: Db, order: seq<CellId>, at: int)
    requires Fits(m, db) && Distinct(order) && forall i | 0 <= i < |order| :: order[i] < |db.rows|
    ensures DoAll(m, db, Expirations(db, order, at))
         == Db(FreedRows(db.rows, order, at), ExpiryEvents(m, db, DueCells(db.rows, order, at), at))
  {
    hide Do, Appended, Freed, FreedRows, ExpiryEvents, DueCells;
    if order == [] {
      NothingFreed(m, db, at);
    } else {
      var n := |order| - 1;
      var init, c := order[..n], order[n];
      assert order == init + [c];
      assert c !in init;
      ExpirationsMean(m, db, init, at);
      FreedSnoc(db.rows, init, c, at);
      DueSnoc(m, db, init, c, at);
      var actions := Expirations(db, init, at);
      if Due(db.rows[c], at) {
        assert (actions + [Expire(c, at)])[..|actions|] == actions;
        ExpireMeans(m, DoAll(m, db, actions), c, at);
      } else {
        assert actions + [] == actions;
      }
    }
  }

  lemma NothingFreed(m: Manifest, db: Db, at: int)
    requires Fits(m, db)
    ensures FreedRows(db.rows, [], at) == db.rows
    ensures ExpiryEvents(m, db, DueCells(db.rows, [], at), at) == db.events
  {
  }

  lemma {:induction false} DueAreExpirations(db: Db, order: seq<CellId>, at: int)
    requires forall i | 0 <= i < |order| :: order[i] < |db.rows|
    ensures var r := Expirations(db, order, at);
      forall c: CellId :: (exists i :: 0 <= i < |r| && r[i] == Expire(c, at)) <==> c in order && Due(db.rows[c], at)
  {
    if order != [] {
      var n := |order| - 1;
      var init, last := order[..n], order[n];
      DueAreExpirations(db, init, at);
      assert order == init + [last];
      var before, r := Expirations(db, init, at), Expirations(db, order, at);
      forall c: CellId
        ensures (exists i :: 0 <= i < |r| && r[i] == Expire(c, at)) <==> c in order && Due(db.rows[c], at)
      {
        if i :| 0 <= i < |before| && before[i] == Expire(c, at) {
          assert r[i] == before[i];
        }
        if c == last && Due(db.rows[c], at) {
          assert r[|before|] == Expire(c, at);
        }
        if i :| 0 <= i < |r| && r[i] == Expire(c, at) && i < |before| {
          assert before[i] == r[i];
        }
      }
    }
  }

  /** Reclaiming frees exactly the due rows, logging one event each, unless a due cell's estimate is negative. */
  lemma ReclaimMeans(m: Manifest, db: Db, at: int)
    requires Fits(m, db)
    ensures forall i | 0 <= i < |KeyOrder(m.cells)| :: KeyOrder(m.cells)[i] < |db.rows|
    ensures var order := KeyOrder(m.cells);
      && (Plan(m, db, Reclaim(at)).Ok? <==>
            forall c | 0 <= c < |db.rows| && Due(db.rows[c], at) :: NotNegative(m.cells[c].estimate))
      && (Plan(m, db, Reclaim(at)).Ok? ==>
            && Step(m, db, Reclaim(at)).rows
                 == seq(|db.rows|, c requires 0 <= c < |db.rows| =>
                      if Due(db.rows[c], at) then Freed(db.rows[c], at) else db.rows[c])
            && Step(m, db, Reclaim(at)).events == ExpiryEvents(m, db, DueCells(db.rows, order, at), at))
  {
    hide Money.Round8, KeyOrder, DoAll, Expirations, ExpiryEvents;
    var order := KeyOrder(m.cells);
    KeyOrderFacts(m.cells);
    ExpirationsMean(m, db, order, at);
    DueAreExpirations(db, order, at);
    var actions := Expirations(db, order, at);
    forall c | 0 <= c < |db.rows| ensures c in order {}
    forall i | 0 <= i < |actions|
      ensures Objection(DraftFor(m, db, actions[i])).None? <==> NotNegative(m.cells[actions[i].cell].estimate)
    {
      assert actions[i] == Expire(actions[i].cell, at);
      ExpiryReason();
    }
    assert FreedRows(db.rows, order, at) == seq(|db.rows|, c requires 0 <= c < |db.rows| =>
      if Due(db.rows[c], at) then Freed(db.rows[c], at) else db.rows[c]);
  }

  lemma ExpiryReason()
    ensures !Text.Blank("lease-expired")
  {
    TextWithHead("lease-expired");
    Text.BlankMeans("lease-expired");
  }

  // ---------------------------------------------------------------- tokens

  /** What the i-th call of the token factory yields, stripped. */
  function Yield(supply: seq<string>, i: nat): string {
    if i < |supply| then Text.Strip(supply[i]) else ""
  }

  function Tagged(raw: string): string {
    if |raw| >= 6 && raw[..6] == "LEASE-" then raw else "LEASE-" + raw
  }

  predicate Fresh(db: Db, token: string) {
    && (forall i | 0 <= i < |db.rows| :: db.rows[i].token != Some(token))
    && (forall i | 0 <= i < |db.events| :: db.events[i].columns.token != Some(token))
  }

  predicate Usable(db: Db, supply: seq<string>, i: nat) {
    Yield(supply, i) != "" && Fresh(db, Tagged(Yield(supply, i)))
  }

  /** The n-th draw from here is the first usable one, among at most eight. */
  predicate FirstDraw(db: Db, supply: seq<string>, drawn: nat, n: int) {
    && 1 <= n <= 8
    && Usable(db, supply, drawn + n - 1)
    && forall i | drawn <= i < drawn + n - 1 :: !Usable(db, supply, i)
  }

  lemma LabelMeans(raw: string)
    ensures Labelled(raw) == Tagged(raw)
  {
    if "LEASE-" <= raw {
      assert raw[..6] == "LEASE-";
    }
  }

  lemma SeenMeans(db: Db, token: string)
    ensures TokenSeen(db, token) <==> !Fresh(db, token)
  {
  }

  predicate Good(db: Db, raw: string) {
    raw != "" && Fresh(db, Tagged(raw))
  }

  lemma {:induction false} FirstUsableMeans(db: Db, draws: seq<string>)
    ensures var r := FirstUsable(db, draws);
      if r == None then forall i | 0 <= i < |draws| :: !Good(db, draws[i])
      else
        var n := r.value.1;
        && 1 <= n <= |draws| && Good(db, draws[n - 1]) && r.value.0 == Tagged(draws[n - 1])
        && forall i | 0 <= i < n - 1 :: !Good(db, draws[i])
  {
    hide Fresh, TokenSeen, Tagged, Labelled;
    if draws != [] {
      LabelMeans(draws[0]);
      SeenMeans(db, Labelled(draws[0]));
      FirstUsableMeans(db, draws[1..]);
      assert forall i | 0 < i < |draws| :: draws[i] == draws[1..][i - 1];
    }
  }

  /** A new token is the first usable of the next eight draws, tagged; there is none if none is usable. */
  lemma NewTokenMeans(db: Db, supply: seq<string>, drawn: nat)
    ensures var r := FirstUsable(db, Draws(supply, drawn));
      if r == None then forall i | drawn <= i < drawn + 8 :: !Usable(db, supply, i)
      else FirstDraw(db, supply, drawn, r.value.1) && r.value.0 == Tagged(Yield(supply, drawn + r.value.1 - 1))
  {
    hide Fresh, Tagged, FirstUsable, Text.Strip;
    var draws := Draws(supply, drawn);
    FirstUsableMeans(db, draws);
    assert |draws| == 8;
    forall i | 0 <= i < 8 ensures draws[i] == Yield(supply, drawn + i) {}
    forall i | drawn <= i < drawn + 8 ensures Usable(db, supply, i) <==> Good(db, draws[i - drawn]) {
      assert draws[i - drawn] == Yield(supply, i);
    }
  }

  // ---------------------------------------------------------------- one cell

  /** Ready, and of the stage and model asked for. */
  predicate Matching(m: Manifest, rows: seq<Row>, request: LeaseRequest, c: CellId)
    requires |rows| == |m.cells| && c < |rows|
  {
    && rows[c].state == Ready
    && request.stage in {None, Some(m.cells[c].stage)}
    && request.model in {None, Some(m.cells[c].model)}
  }

  function LeasedOf(m: Manifest, rows: seq<Row>, model: string): set<CellId>
    requires |rows| == |m.cells|
  {
    set c: CellId | c < |rows| && rows[c].state == Leased && m.cells[c].model == model
  }

  function Charges(rows: seq<Row>): seq<real> {
    seq(|rows|, c requires 0 <= c < |rows| => rows[c].actual)
  }

  function Prices(m: Manifest, rows: seq<Row>): seq<real>
    requires |rows| == |m.cells|
  {
    seq(|rows|, c requires 0 <= c < |rows| => if rows[c].state == Leased then Price(m.cells[c]) else 0.0)
  }

  /** Below its model's cap, priced, and within what the budget leaves after charges and live leases. */
  predicate Admissible(m: Manifest, rows: seq<Row>, c: CellId)
    requires |rows| == |m.cells| && c < |rows|
  {
    && |LeasedOf(m, rows, m.cells[c].model)| < m.maxParallelPerModel
    && m.cells[c].estimate.Some?
    && (m.hardBudget.Some? ==> Sum(Charges(rows)) + Sum(Prices(m, rows)) + Price(m.cells[c]) <= m.hardBudget.value)
  }

  lemma ActiveMeans(m: Manifest, rows: seq<Row>, model: string)
    requires |rows| == |m.cells|
    ensures Active(m, rows, model) == |LeasedOf(m, rows, model)|
  {
    var flags := ActiveFlags(m, rows, model);
    CountIsSize(flags);
    SameSize(flags, LeasedOf(m, rows, model));
  }

  /** The scheduler passes over exactly the cells that are not admissible. */
  lemma RefusedMeans(m: Manifest, rows: seq<Row>, c: CellId)
    requires |rows| == |m.cells| && c < |rows|
    ensures Refused(m, rows, c) <==> !Admissible(m, rows, c)
  {
    ActiveMeans(m, rows, m.cells[c].model);
    assert Charges(rows) == Actuals(rows);
    assert Prices(m, rows) == Reservations(m, rows);
  }

  lemma WantedMeans(m: Manifest, rows: seq<Row>, request: LeaseRequest, c: CellId)
    requires |rows| == |m.cells| && c < |rows|
    ensures Wanted(m, rows, request, c) <==> Matching(m, rows, request, c)
  {
  }

  /** The state after one more lease, its row and event spelled out. */
  function LeasedDb(m: Manifest, db: Db, request: LeaseRequest, c: CellId, token: string): Db
    requires c < |db.rows| && c < |m.cells|
  {
    var row := db.rows[c];
    var reason := "worker-lease:" + request.worker;
    Db(db.rows[c := Row(Leased, row.actual, row.attempts + 1, Some(request.worker), Some(token), Some(request.at),
                        Some(request.at + request.seconds), row.artifact, Some(reason), request.at)],
       Appended(m, db.events, c, Ready, Leased, request.at, Some(request.worker), Some(token), row.attempts + 1, reason,
                Price(m.cells[c]), 0.0, None))
  }

  lemma IssueMeans(m: Manifest, db: Db, request: LeaseRequest, c: CellId, token: string)
    requires Fits(m, db) && c < |db.rows|
    ensures var a := Issue(c, request.at, request.seconds, request.worker, token);
      && Do(m, db, a) == LeasedDb(m, db, request, c, token)
      && (db.rows[c].state == Ready ==> (Objection(DraftFor(m, db, a)).None? <==> NotNegative(m.cells[c].estimate)))
  {
    hide Money.Round8, Text.Blank;
    TextWithHead("worker-lease:" + request.worker);
    Text.BlankMeans("worker-lease:" + request.worker);
  }

  // ---------------------------------------------------------------- the pass

  /** The pass is to lease this cell if it comes to it with these many leases made. */
  predicate Takes(m: Manifest, rows: seq<Row>, request: LeaseRequest, c: CellId, taken: int)
    requires |rows| == |m.cells| && c < |rows|
  {
    taken < request.limit && Matching(m, rows, request, c) && Admissible(m, rows, c)
  }

  /** One turn of the pass: lease the cell under the first usable token, or leave everything alone. */
  ghost predicate Turn(m: Manifest, db: Db, db': Db, request: LeaseRequest, c: CellId, base: int, drawn: nat,
                       drawn': nat)
  {
    && |db.rows| == |m.cells| && c < |db.rows|
    && if Takes(m, db.rows, request, c, |db.events| - base) then
         && drawn < drawn' && FirstDraw(db, request.supply, drawn, drawn' - drawn)
         && db' == LeasedDb(m, db, request, c, Tagged(Yield(request.supply, drawn' - 1)))
       else db' == db && drawn' == drawn
  }

  /** Turn by turn over the cells in order, from one state to the next. */
  ghost predicate Pass(m: Manifest, states: seq<Db>, request: LeaseRequest, order: seq<CellId>, base: int,
                       draws: seq<nat>)
  {
    && |states| == |draws| == |order| + 1
    && forall q | 0 <= q < |order| :: Turn(m, states[q], states[q + 1], request, order[q], base, draws[q], draws[q + 1])
  }

  lemma NoTurns(m: Manifest, db: Db, request: LeaseRequest, order: seq<CellId>, base: int, drawn: nat)
    returns (states: seq<Db>, draws: seq<nat>)
    requires Fits(m, db) && forall i | 0 <= i < |order| :: order[i] < |db.rows|
    requires order == [] || |db.events| - base >= request.limit
    ensures Pass(m, states, request, order, base, draws)
    ensures states[0] == db && states[|order|] == db && draws[0] == drawn
  {
    hide Admissible, Matching;
    states := seq(|order| + 1, _ => db);
    draws := seq(|order| + 1, _ => drawn);
  }

  lemma PassCons(m: Manifest, db: Db, states: seq<Db>, request: LeaseRequest, order: seq<CellId>, base: int,
                 drawn: nat, draws: seq<nat>)
    requires order != [] && Pass(m, states, request, order[1..], base, draws)
    requires Turn(m, db, states[0], request, order[0], base, drawn, draws[0])
    ensures Pass(m, [db] + states, request, order, base, [drawn] + draws)
  {
    hide Turn;
    var s, d := [db] + states, [drawn] + draws;
    forall q | 0 <= q < |order| ensures Turn(m, s[q], s[q + 1], request, order[q], base, d[q], d[q + 1]) {
      if q > 0 {
        assert order[1..][q - 1] == order[q];
        assert Turn(m, states[q - 1], states[q], request, order[1..][q - 1], base, draws[q - 1], draws[q]);
      }
    }
  }

  lemma {:induction false} GreedyMeans(m: Manifest, db: Db, request: LeaseRequest, order: seq<CellId>, base: int,
                                       drawn: nat)
    returns (states: seq<Db>, draws: seq<nat>)
    requires Fits(m, db) && base <= |db.events| && forall i | 0 <= i < |order| :: order[i] < |db.rows|
    requires PlanGreedy(m, db, request, order, |db.events| - base, drawn).Ok?
    ensures Pass(m, states, request, order, base, draws) && states[0] == db && draws[0] == drawn
    ensures states[|order|] == DoAll(m, db, PlanGreedy(m, db, request, order, |db.events| - base, drawn).value)
    decreases |order|
  {
    hide Pass, FirstDraw, Turn, Do, Wanted, Refused, FirstUsable, Draws, LeasedDb, Objection, DraftFor;
    var taken := |db.events| - base;
    if order == [] || taken >= request.limit {
      states, draws := NoTurns(m, db, request, order, base, drawn);
      StatesShape(m, states, request, order, base, draws);
    } else {
      var c := order[0];
      match Choice(m, db, request, c, drawn)
      case Ok(None) =>
        states, draws := GreedyMeans(m, db, request, order[1..], base, drawn);
        StatesShape(m, states, request, order[1..], base, draws);
        TurnSkips(m, db, request, c, base, drawn);
        PassCons(m, db, states, request, order, base, drawn, draws);
        states, draws := [db] + states, [drawn] + draws;
        StatesShape(m, states, request, order, base, draws);
      case Ok(Some((a, drawn'))) =>
        var db' := Do(m, db, a);
        states, draws := GreedyMeans(m, db', request, order[1..], base, drawn');
        StatesShape(m, states, request, order[1..], base, draws);
        TurnTakes(m, db, request, c, base, drawn, a, drawn');
        PassCons(m, db, states, request, order, base, drawn, draws);
        var rest := PlanGreedy(m, db', request, order[1..], taken + 1, drawn').value;
        DoAllConcat(m, db, [a], rest);
        DoAllOne(m, db, a);
        states, draws := [db] + states, [drawn] + draws;
        StatesShape(m, states, request, order, base, draws);
    }
  }

  lemma StatesShape(m: Manifest, states: seq<Db>, request: LeaseRequest, order: seq<CellId>, base: int, draws: seq<nat>)
    requires Pass(m, states, request, order, base, draws)
    ensures |states| == |draws| == |order| + 1
  {
  }

  lemma TurnSkips(m: Manifest, db: Db, request: LeaseRequest, c: CellId, base: int, drawn: nat)
    requires Fits(m, db) && c < |db.rows| && Choice(m, db, request, c, drawn) == Ok(None)
    ensures Turn(m, db, db, request, c, base, drawn, drawn)
  {
    hide Wanted, Refused, Matching, Admissible, FirstUsable, Draws, Objection, DraftFor;
    WantedMeans(m, db.rows, request, c);
    RefusedMeans(m, db.rows, c);
  }

  lemma TurnTakes(m: Manifest, db: Db, request: LeaseRequest, c: CellId, base: int, drawn: nat, a: Action, drawn': nat)
    requires Fits(m, db) && c < |db.rows| && Choice(m, db, request, c, drawn) == Ok(Some((a, drawn')))
    requires |db.events| - base < request.limit
    ensures a.cell == c && Turn(m, db, Do(m, db, a), request, c, base, drawn, drawn')
  {
    hide Wanted, Refused, Matching, Admissible, FirstUsable, Draws, Objection, DraftFor, LeasedDb, FirstDraw, Do;
    WantedMeans(m, db.rows, request, c);
    RefusedMeans(m, db.rows, c);
    NewTokenMeans(db, request.supply, drawn);
    DrawBounds(db, request.supply, drawn, drawn' - drawn);
    IssueMeans(m, db, request, c, a.token);
  }

  lemma DrawBounds(db: Db, supply: seq<string>, drawn: nat, n: int)
    ensures n >= 0 && FirstDraw(db, supply, drawn, n) ==> n >= 1
  {
  }

  /** An accepted lease call reclaims, and then passes over the cells in order, turn by turn. */
  lemma LeaseMeans(m: Manifest, db: Db, request: LeaseRequest) returns (states: seq<Db>, draws: seq<nat>)
    requires Fits(m, db) && Plan(m, db, Lease(request)).Ok?
    ensures Plan(m, db, Reclaim(request.at)).Ok?
    ensures var reclaimed := Step(m, db, Reclaim(request.at));
      && Pass(m, states, request, KeyOrder(m.cells), |reclaimed.events|, draws)
      && states[0] == reclaimed && draws[0] == 0
      && states[|KeyOrder(m.cells)|] == Step(m, db, Lease(request))
  {
    hide Pass, PlanGreedy, PlanReclaim, KeyOrder, DoAll;
    KeyOrderFacts(m.cells);
    var expirations := PlanReclaim(m, db, request.at).value;
    var middle := DoAll(m, db, expirations);
    states, draws := GreedyMeans(m, middle, request, KeyOrder(m.cells), |middle.events|, 0);
    var issues := PlanGreedy(m, middle, request, KeyOrder(m.cells), 0, 0).value;
    DoAllConcat(m, db, expirations, issues);
    StatesShape(m, states, request, KeyOrder(m.cells), |middle.events|, draws);
  }

  // ---------------------------------------------------------------- when a lease call is refused

  /** Bad arguments first, then a manifest without a budget or with a blocked gate. */
  lemma LeaseErrors(m: Manifest, db: Db, request: LeaseRequest)
    requires Fits(m, db)
    ensures var r := Plan(m, db, Lease(request));
      var bad := !Text.HasText(request.worker) || request.limit < 1 || request.seconds < 1;
      var blocked := m.gate in {BlockedUnknownPrices, BlockedBudgetExceeded, BlockedNoHardBudget};
      && (bad ==> r == Err(BadArgument))
      && (!bad && (m.hardBudget == None || blocked) ==> r == Err(NotExecutable))
      && (!bad && m.hardBudget != None && !blocked ==> r != Err(BadArgument) && r != Err(NotExecutable))
  {
    hide Text.Blank, Text.HasText, PlanGreedy, PlanReclaim;
    Text.BlankMeans(request.worker);
    if PlanReclaim(m, db, request.at).Ok? {
      var middle := DoAll(m, db, PlanReclaim(m, db, request.at).value);
      GreedyErrors(m, middle, request, KeyOrder(m.cells), 0, 0);
    }
    ReclaimErrors(m, db, request.at);
  }

  lemma ReclaimErrors(m: Manifest, db: Db, at: int)
    requires Fits(m, db)
    ensures PlanReclaim(m, db, at).Err? ==> PlanReclaim(m, db, at).error == NegativeCost
  {
  }

  lemma {:induction false} GreedyErrors(m: Manifest, db: Db, request: LeaseRequest, order: seq<CellId>, taken: nat,
                                        drawn: nat)
    requires Fits(m, db) && forall i | 0 <= i < |order| :: order[i] < |db.rows|
    ensures var r := PlanGreedy(m, db, request, order, taken, drawn);
      r.Err? ==> r.error in {NoFreshToken, NegativeCost}
    decreases |order|
  {
    hide Refused, FirstUsable, Draws, Do;
    if order != [] && taken < request.limit {
      match Choice(m, db, request, order[0], drawn)
      case Err(e) =>
        if Wanted(m, db.rows, request, order[0]) {
          var r := FirstUsable(db, Draws(request.supply, drawn));
          if r.Some? {
            var a := Issue(order[0], request.at, request.seconds, request.worker, r.value.0);
            hide DraftFor;
            IssueObjects(m, db, request, order[0], r.value.0);
          }
        }
      case Ok(None) => GreedyErrors(m, db, request, order[1..], taken, drawn);
      case Ok(Some((a, drawn'))) => GreedyErrors(m, Do(m, db, a), request, order[1..], taken + 1, drawn');
    }
  }

  lemma IssueObjects(m: Manifest, db: Db, request: LeaseRequest, c: CellId, token: string)
    requires Fits(m, db) && c < |db.rows| && db.rows[c].state == Ready
    ensures var r := Objection(DraftFor(m, db, Issue(c, request.at, request.seconds, request.worker, token)));
      r in {None, Some(NegativeCost)}
  {
    hide Text.Blank;
    TextWithHead("worker-lease:" + request.worker);
    Text.BlankMeans("worker-lease:" + request.worker);
  }

  /** From the n-th draw on, as many draws as may be needed are usable and different. */
  ghost predicate Supplied(db: Db, supply: seq<string>, n: int, limit: int) {
    && (forall i: nat | n <= i < limit :: Usable(db, supply, i))
    && (forall i: nat, j: nat | n <= i < j < limit :: Tagged(Yield(supply, i)) != Tagged(Yield(supply, j)))
  }

  lemma {:induction false} GreedySucceeds(m: Manifest, db: Db, request: LeaseRequest, order: seq<CellId>, taken: nat)
    requires Fits(m, db) && forall i | 0 <= i < |order| :: order[i] < |db.rows|
    requires forall c | 0 <= c < |m.cells| :: NotNegative(m.cells[c].estimate)
    requires Supplied(db, request.supply, taken, request.limit)
    ensures PlanGreedy(m, db, request, order, taken, taken).Ok?
    decreases |order|
  {
    hide Refused, FirstUsable, Draws, Do, Usable, Tagged, Objection, DraftFor, LeasedDb;
    if order != [] && taken < request.limit {
      var c := order[0];
      if !Wanted(m, db.rows, request, c) || Refused(m, db.rows, c) {
        GreedySucceeds(m, db, request, order[1..], taken);
      } else {
        var token := Tagged(Yield(request.supply, taken));
        assert Usable(db, request.supply, taken);
        FirstIsUsable(db, request.supply, taken);
        IssueMeans(m, db, request, c, token);
        SupplyLasts(m, db, request, c, taken);
        GreedySucceeds(m, LeasedDb(m, db, request, c, token), request, order[1..], taken + 1);
      }
    }
  }

  lemma FirstIsUsable(db: Db, supply: seq<string>, drawn: nat)
    requires Usable(db, supply, drawn)
    ensures FirstUsable(db, Draws(supply, drawn)) == Some((Tagged(Yield(supply, drawn)), 1))
  {
    hide Usable, FirstUsable, Draws, Tagged;
    NewTokenMeans(db, supply, drawn);
  }

  lemma SupplyLasts(m: Manifest, db: Db, request: LeaseRequest, c: CellId, n: nat)
    requires Fits(m, db) && c < |db.rows| && n < request.limit && Supplied(db, request.supply, n, request.limit)
    ensures var after := LeasedDb(m, db, request, c, Tagged(Yield(request.supply, n)));
      Supplied(after, request.supply, n + 1, request.limit)
  {
    hide Tagged, Yield;
    var token := Tagged(Yield(request.supply, n));
    var after := LeasedDb(m, db, request, c, token);
    forall i: nat | n + 1 <= i < request.limit ensures Usable(after, request.supply, i) {
      assert Usable(db, request.supply, i);
      assert Tagged(Yield(request.supply, i)) != token;
      assert after.rows[c].token == Some(token);
    }
  }

  lemma SupplyAfterReclaim(m: Manifest, db: Db, at: int, supply: seq<string>, limit: int)
    requires Fits(m, db) && Plan(m, db, Reclaim(at)).Ok? && Supplied(db, supply, 0, limit)
    ensures Supplied(Step(m, db, Reclaim(at)), supply, 0, limit)
  {
    hide Plan, Step, Tagged, Yield, KeyOrder;
    ReclaimMeans(m, db, at);
    var due := DueCells(db.rows, KeyOrder(m.cells), at);
    var after := Step(m, db, Reclaim(at));
    forall i: nat | 0 <= i < limit ensures Usable(after, supply, i) {
      assert Usable(db, supply, i);
      var token := Tagged(Yield(supply, i));
      FreshInExpiries(m, db, due, at, token);
      assert NowhereIn(after.events, token);
    }
  }

  predicate NowhereIn(events: seq<Event>, token: string) {
    forall i | 0 <= i < |events| :: events[i].columns.token != Some(token)
  }

  lemma {:induction false} FreshInExpiries(m: Manifest, db: Db, due: seq<CellId>, at: int, token: string)
    requires Fresh(db, token) && forall i | 0 <= i < |due| :: due[i] < |db.rows| && due[i] < |m.cells|
    ensures NowhereIn(ExpiryEvents(m, db, due, at), token)
  {
    hide Money.Round8;
    if due != [] {
      var c := due[|due| - 1];
      FreshInExpiries(m, db, due[..|due| - 1], at, token);
      assert db.rows[c].token != Some(token);
    }
  }

  /** With no negative estimate and enough usable, different draws, an executable lease call succeeds. */
  lemma LeaseSucceeds(m: Manifest, db: Db, request: LeaseRequest)
    requires Fits(m, db)
    requires Text.HasText(request.worker) && request.limit >= 1 && request.seconds >= 1
    requires m.hardBudget.Some? && m.gate !in {BlockedUnknownPrices, BlockedBudgetExceeded, BlockedNoHardBudget}
    requires forall c | 0 <= c < |m.cells| :: NotNegative(m.cells[c].estimate)
    requires Supplied(db, request.supply, 0, request.limit)
    ensures Plan(m, db, Lease(request)).Ok?
  {
    hide Text.Blank, Text.HasText, PlanGreedy, PlanReclaim, Supplied, KeyOrder, DoAll, NotNegative, Due;
    Text.BlankMeans(request.worker);
    ReclaimMeans(m, db, request.at);
    SupplyAfterReclaim(m, db, request.at, request.supply, request.limit);
    KeyOrderFacts(m.cells);
    GreedySucceeds(m, Step(m, db, Reclaim(request.at)), request, KeyOrder(m.cells), 0);
  }

  /** The ticket handed out for a lease: its cell, owner, token, time, expiry, attempt and price. */
  lemma TicketMeans(m: Manifest, db: Db, request: LeaseRequest, c: CellId, token: string)
    requires Fits(m, db) && c < |db.rows|
    ensures var after := LeasedDb(m, db, request, c, token);
      && |after.events| == |db.events| + 1
      && TicketFrom(m, after.events[|db.events|].columns, request.seconds)
           == Ticket(c, request.worker, token, request.at, request.at + request.seconds, db.rows[c].attempts + 1,
                     Price(m.cells[c]))
  {
    hide Money.Round8;
  }
}
