/**
 * Runs: any finite interleaving of store calls by any callers at any times. A trace keeps, next
 * to the store's own state, what the caller passed for each event but the log does not hold
 * exactly: the expiry asked for and the unrounded charge.
 */
module StoreRuns {
  import opened Prelude
  import opened Campaign
  import opened Store

  datatype Mark = Mark(horizon: int, charge: real)

  function MarkOf(a: Action): Mark {
    match a
    case Issue(_, at, seconds, _, _) => Mark(at + seconds, 0.0)
    case Renew(_, at, seconds, _, _) => Mark(at + seconds, 0.0)
    case Finish(_, _, _, _, _, _, actual, _) => Mark(0, actual)
    case _ => Mark(0, 0.0)
  }

  datatype Trace = Trace(db: Db, marks: seq<Mark>)

  ghost predicate Shaped(m: Manifest, t: Trace) {
    Fits(m, t.db) && |t.marks| == |t.db.events|
  }

  function Extend(m: Manifest, t: Trace, a: Action): (r: Trace)
    requires a.cell < |t.db.rows|
    ensures |r.db.rows| == |t.db.rows|
  {
    Trace(Do(m, t.db, a), t.marks + [MarkOf(a)])
  }

  function ExtendAll(m: Manifest, t: Trace, actions: seq<Action>): (r: Trace)
    requires InRange(t.db, actions)
    ensures |r.db.rows| == |t.db.rows|
    ensures r.db == DoAll(m, t.db, actions)
  {
    if actions == [] then t
    else Extend(m, ExtendAll(m, t, actions[..|actions| - 1]), actions[|actions| - 1])
  }

  function Start(m: Manifest, createdAt: int): Trace {
    Trace(InitialDb(m, createdAt), [])
  }

  function After(m: Manifest, t: Trace, call: Call): (r: Trace)
    requires Fits(m, t.db)
    ensures r.db == Step(m, t.db, call)
  {
    match Plan(m, t.db, call)
    case Err(_) => t
    case Ok(actions) => ExtendAll(m, t, actions)
  }

  /** The trace of a whole run; a call that raises leaves it unchanged. */
  function Run(m: Manifest, createdAt: int, calls: seq<Call>): (r: Trace)
    ensures Fits(m, r.db)
  {
    if calls == [] then Start(m, createdAt)
    else After(m, Run(m, createdAt, calls[..|calls| - 1]), calls[|calls| - 1])
  }

  lemma RunSnoc(m: Manifest, createdAt: int, calls: seq<Call>, call: Call)
    ensures Run(m, createdAt, calls + [call]) == After(m, Run(m, createdAt, calls), call)
  {
    assert (calls + [call])[..|calls|] == calls;
  }

  // ---------------------------------------------------------------- calls decompose into enabled changes

  /** Each action's guard holds in the state in which it is applied. */
  ghost predicate EnabledAll(m: Manifest, db: Db, actions: seq<Action>) {
    InRange(db, actions) &&
    forall i | 0 <= i < |actions| :: Enabled(m, DoAll(m, db, actions[..i]), actions[i])
  }

  lemma EnabledConcat(m: Manifest, db: Db, first: seq<Action>, second: seq<Action>)
    requires EnabledAll(m, db, first) && EnabledAll(m, DoAll(m, db, first), second)
    ensures EnabledAll(m, db, first + second)
  {
    hide Enabled, DoAll;
    forall i | 0 <= i < |first + second|
      ensures Enabled(m, DoAll(m, db, (first + second)[..i]), (first + second)[i])
    {
      if i < |first| {
        assert (first + second)[..i] == first[..i];
      } else {
        assert (first + second)[..i] == first + second[..i - |first|];
        DoAllConcat(m, db, first, second[..i - |first|]);
      }
    }
  }

  lemma {:induction false} DoAllElsewhere(m: Manifest, db: Db, actions: seq<Action>, c: CellId)
    requires InRange(db, actions) && c < |db.rows|
    requires forall i | 0 <= i < |actions| :: actions[i].cell != c
    ensures DoAll(m, db, actions).rows[c] == db.rows[c]
  {
    if actions != [] {
      DoAllElsewhere(m, db, actions[..|actions| - 1], c);
    }
  }

  ghost predicate DistinctCells(actions: seq<Action>) {
    forall i, j | 0 <= i < j < |actions| :: actions[i].cell != actions[j].cell
  }

  lemma {:induction false} ExpirationsDistinct(db: Db, order: seq<CellId>, at: int)
    requires forall i | 0 <= i < |order| :: order[i] < |db.rows|
    requires Distinct(order)
    ensures DistinctCells(Expirations(db, order, at))
  {
    if order != [] {
      var init := order[..|order| - 1];
      ExpirationsDistinct(db, init, at);
      var before := Expirations(db, init, at);
      forall i | 0 <= i < |before| ensures before[i].cell != order[|order| - 1] {
        var k :| 0 <= k < |init| && init[k] == before[i].cell;
        assert order[k] == init[k];
      }
      assert DistinctCells(before);
      var r := Expirations(db, order, at);
      assert r[..|before|] == before;
      forall i, j | 0 <= i < j < |r| ensures r[i].cell != r[j].cell {
        assert r[i] == before[i];
      }
    }
  }

  lemma ReclaimEnabled(m: Manifest, db: Db, at: int)
    requires Fits(m, db)
    ensures PlanReclaim(m, db, at).Ok? ==> EnabledAll(m, db, PlanReclaim(m, db, at).value)
  {
    var actions := Expirations(db, KeyOrder(m.cells), at);
    KeyOrderFacts(m.cells);
    ExpirationsDistinct(db, KeyOrder(m.cells), at);
    if !AnyObjection(m, db, actions) {
      forall i | 0 <= i < |actions| ensures Enabled(m, DoAll(m, db, actions[..i]), actions[i]) {
        forall j | 0 <= j < |actions[..i]| ensures actions[..i][j].cell != actions[i].cell {
          assert actions[..i][j] == actions[j];
        }
        DoAllElsewhere(m, db, actions[..i], actions[i].cell);
        assert Objection(DraftFor(m, db, actions[i])).None?;
      }
    }
  }

  lemma {:induction false} GreedyEnabled(m: Manifest, db: Db, request: LeaseRequest, order: seq<CellId>, taken: nat,
                                         drawn: nat)
    requires Fits(m, db)
    requires forall i | 0 <= i < |order| :: order[i] < |db.rows|
    requires request.seconds >= 1 && m.hardBudget.Some?
    ensures var r := PlanGreedy(m, db, request, order, taken, drawn); r.Ok? ==> EnabledAll(m, db, r.value)
    decreases |order|
  {
    if order == [] || taken >= request.limit {
    } else {
      match Choice(m, db, request, order[0], drawn)
      case Err(_) =>
      case Ok(None) => GreedyEnabled(m, db, request, order[1..], taken, drawn);
      case Ok(Some((a, drawn'))) =>
        GreedyEnabled(m, Do(m, db, a), request, order[1..], taken + 1, drawn');
        assert DoAll(m, db, [a]) == Do(m, db, a) by { assert [a][..0] == []; }
        var rest := PlanGreedy(m, Do(m, db, a), request, order[1..], taken + 1, drawn');
        if rest.Ok? {
          EnabledConcat(m, db, [a], rest.value);
        }
    }
  }

  /** A call commits only changes whose guards hold when they are made. */
  lemma PlanEnabled(m: Manifest, db: Db, call: Call)
    requires Fits(m, db)
    ensures Plan(m, db, call).Ok? ==> EnabledAll(m, db, Plan(m, db, call).value)
  {
    hide PlanReclaim, PlanGreedy, Objection, DraftFor;
    match call
    case Reclaim(at) => ReclaimEnabled(m, db, at);
    case Lease(request) =>
      ReclaimEnabled(m, db, request.at);
      if RequestError(m, request).None? && PlanReclaim(m, db, request.at).Ok? {
        var expirations := PlanReclaim(m, db, request.at).value;
        GreedyEnabled(m, DoAll(m, db, expirations), request, KeyOrder(m.cells), 0, 0);
        var issues := PlanGreedy(m, DoAll(m, db, expirations), request, KeyOrder(m.cells), 0, 0);
        if issues.Ok? {
          EnabledConcat(m, db, expirations, issues.value);
        }
      }
    case _ =>
      var r := Plan(m, db, call);
      if r.Ok? {
        assert |r.value| == 1 && r.value[..0] == [];
      }
  }
}
