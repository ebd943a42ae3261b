/** The campaign manifest: cells, their states, the budget gate and the scheduling order. */
module Campaign {
  import opened Prelude
  import Text

  datatype CellState =
    | BlockedQualification
    | BlockedPrice
    | Ready
    | Leased
    | Succeeded
    | Failed
    | Quarantined
    | Cancelled

  predicate Terminal(s: CellState) {
    s in {Succeeded, Failed, Quarantined, Cancelled}
  }

  predicate Blocked(s: CellState) {
    s == BlockedQualification || s == BlockedPrice
  }

  /** A cell is identified by its position in the manifest. */
  type CellId = nat

  datatype Cell = Cell(
    stage: string,
    model: string,
    task: string,
    replicate: int,
    initial: CellState,
    estimate: Option<real>)

  datatype Gate =
    | Pass
    | AdvisoryNoHardBudget
    | BlockedUnknownPrices
    | BlockedBudgetExceeded
    | BlockedNoHardBudget

  predicate BlocksExecution(g: Gate) {
    g.BlockedUnknownPrices? || g.BlockedBudgetExceeded? || g.BlockedNoHardBudget?
  }

  datatype Manifest = Manifest(
    id: string,
    hardBudget: Option<real>,
    maxParallelPerModel: int,
    gate: Gate,
    cells: seq<Cell>)

  /** Execution starts with no lease outstanding. */
  ghost predicate NothingLeased(m: Manifest) {
    forall c | 0 <= c < |m.cells| :: !m.cells[c].initial.Leased?
  }

  function EstimateOrZero(m: Manifest, c: CellId): real {
    if c < |m.cells| && m.cells[c].estimate.Some? then m.cells[c].estimate.value else 0.0
  }

  // ---------------------------------------------------------------- budget gate

  function KnownCosts(cells: seq<Cell>): seq<real> {
    seq(|cells|, i requires 0 <= i < |cells| =>
      if cells[i].estimate.Some? then cells[i].estimate.value else 0.0)
  }

  function KnownCost(cells: seq<Cell>): real {
    Sum(KnownCosts(cells))
  }

  predicate SomeReadyUnpriced(cells: seq<Cell>) {
    exists i | 0 <= i < |cells| :: cells[i].initial.Ready? && cells[i].estimate.None?
  }

  function GateFor(cells: seq<Cell>, hardBudget: Option<real>, reserveFraction: real,
                   requireHardBudget: bool): Gate
  {
    if SomeReadyUnpriced(cells) then BlockedUnknownPrices
    else if hardBudget.Some? && KnownCost(cells) * (1.0 + reserveFraction) > hardBudget.value then
      BlockedBudgetExceeded
    else if hardBudget.None? && requireHardBudget then BlockedNoHardBudget
    else if hardBudget.None? then AdvisoryNoHardBudget
    else Pass
  }

  // ---------------------------------------------------------------- ORDER BY stage, model, task, replicate

  predicate KeyLess(a: Cell, b: Cell) {
    Text.Less(a.stage, b.stage) || (a.stage == b.stage &&
    (Text.Less(a.model, b.model) || (a.model == b.model &&
    (Text.Less(a.task, b.task) || (a.task == b.task && a.replicate < b.replicate)))))
  }

  function InsertByKey(cells: seq<Cell>, order: seq<CellId>, c: CellId): (r: seq<CellId>)
    requires c < |cells|
    requires forall i | 0 <= i < |order| :: order[i] < |cells|
    ensures forall i | 0 <= i < |r| :: r[i] < |cells|
  {
    if order == [] || KeyLess(cells[c], cells[order[0]]) then [c] + order
    else [order[0]] + InsertByKey(cells, order[1..], c)
  }

  function KeyOrderTo(cells: seq<Cell>, n: nat): (r: seq<CellId>)
    requires n <= |cells|
    ensures forall i | 0 <= i < |r| :: r[i] < |cells|
  {
    if n == 0 then [] else InsertByKey(cells, KeyOrderTo(cells, n - 1), n - 1)
  }

  /** Every cell id once, ordered by (stage, model, task, replicate). */
  function KeyOrder(cells: seq<Cell>): (r: seq<CellId>)
    ensures forall i | 0 <= i < |r| :: r[i] < |cells|
  {
    KeyOrderTo(cells, |cells|)
  }

  ghost predicate KeySorted(cells: seq<Cell>, order: seq<CellId>)
    requires forall i | 0 <= i < |order| :: order[i] < |cells|
  {
    forall i, j | 0 <= i < j < |order| :: !KeyLess(cells[order[j]], cells[order[i]])
  }

  lemma KeyLessTransitive(a: Cell, b: Cell, c: Cell)
    ensures !KeyLess(b, a) && !KeyLess(c, b) ==> !KeyLess(c, a)
    ensures KeyLess(a, b) ==> !KeyLess(b, a)
  {
    TextFacts(a.stage, b.stage, c.stage);
    TextFacts(a.model, b.model, c.model);
    TextFacts(a.task, b.task, c.task);
  }

  lemma TextFacts(a: string, b: string, c: string)
    ensures Text.Less(a, b) ==> !Text.Less(b, a)
    ensures Text.Less(a, b) && Text.Less(b, c) ==> Text.Less(a, c)
    ensures a == b || Text.Less(a, b) || Text.Less(b, a)
    ensures b == c || Text.Less(b, c) || Text.Less(c, b)
    ensures a == c || Text.Less(a, c) || Text.Less(c, a)
    ensures !Text.Less(a, a) && (Text.Less(b, c) ==> !Text.Less(c, b)) && (Text.Less(a, c) ==> !Text.Less(c, a))
  {
    Text.LessTrichotomy(a, b);
    Text.LessTrichotomy(b, c);
    Text.LessTrichotomy(a, c);
    Text.LessTrichotomy(a, a);
    if Text.Less(a, b) && Text.Less(b, c) {
      Text.LessTransitive(a, b, c);
    }
  }

  lemma {:induction false} InsertByKeyFacts(cells: seq<Cell>, order: seq<CellId>, c: CellId)
    requires c < |cells|
    requires forall i | 0 <= i < |order| :: order[i] < |cells|
    requires KeySorted(cells, order) && Distinct(order) && c !in order
    ensures var r := InsertByKey(cells, order, c);
      KeySorted(cells, r) && Distinct(r) && forall x :: x in r <==> x == c || x in order
  {
    var r := InsertByKey(cells, order, c);
    if order == [] {
    } else if KeyLess(cells[c], cells[order[0]]) {
      forall i | 0 <= i < |order| ensures !KeyLess(cells[order[i]], cells[c]) {
        KeyLessTransitive(cells[c], cells[order[0]], cells[order[i]]);
      }
    } else {
      assert order[0] in order;
      var tail := order[1..];
      forall x ensures x in order <==> x == order[0] || x in tail {
        assert order == [order[0]] + tail;
      }
      InsertByKeyFacts(cells, tail, c);
      var r' := InsertByKey(cells, tail, c);
      forall x | x in r' ensures x != order[0] && !KeyLess(cells[x], cells[order[0]]) {
        if x in tail {
          var k :| 0 <= k < |tail| && tail[k] == x;
          assert order[k + 1] == x;
        }
      }
    }
  }

  lemma {:induction false} KeyOrderToFacts(cells: seq<Cell>, n: nat)
    requires n <= |cells|
    ensures var r := KeyOrderTo(cells, n);
      KeySorted(cells, r) && Distinct(r) && forall x :: x in r <==> 0 <= x < n
  {
    if n > 0 {
      KeyOrderToFacts(cells, n - 1);
      InsertByKeyFacts(cells, KeyOrderTo(cells, n - 1), n - 1);
    }
  }

  /** KeyOrder is a sorted enumeration of all cells without repetition. */
  lemma KeyOrderFacts(cells: seq<Cell>)
    ensures KeySorted(cells, KeyOrder(cells))
    ensures Distinct(KeyOrder(cells))
    ensures forall x :: x in KeyOrder(cells) <==> 0 <= x < |cells|
  {
    KeyOrderToFacts(cells, |cells|);
  }

  // ---------------------------------------------------------------- what these mean

  /** Cells come by stage, then by model, then by task, then by replicate. */
  lemma KeyOrderMeans(cells: seq<Cell>, i: nat, j: nat)
    requires i < j < |KeyOrder(cells)|
    ensures var a, b := cells[KeyOrder(cells)[i]], cells[KeyOrder(cells)[j]];
      && !Text.Less(b.stage, a.stage)
      && (a.stage == b.stage ==>
            && !Text.Less(b.model, a.model)
            && (a.model == b.model ==>
                  && !Text.Less(b.task, a.task)
                  && (a.task == b.task ==> a.replicate <= b.replicate)))
  {
    hide KeyOrder, Text.Less;
    KeyOrderFacts(cells);
    assert !KeyLess(cells[KeyOrder(cells)[j]], cells[KeyOrder(cells)[i]]);
  }

  /** The known cost adds up the estimates that are known. */
  lemma KnownCostMeans(cells: seq<Cell>, cell: Cell)
    ensures KnownCost([]) == 0.0
    ensures KnownCost(cells + [cell]) == KnownCost(cells) + (match cell.estimate case Some(x) => x case None => 0.0)
  {
    var more := cells + [cell];
    assert KnownCosts(more) == KnownCosts(cells) + [if cell.estimate.Some? then cell.estimate.value else 0.0];
    SumSnoc(KnownCosts(cells), if cell.estimate.Some? then cell.estimate.value else 0.0);
  }

  predicate UnpricedReady(cells: seq<Cell>, i: int) {
    0 <= i < |cells| && cells[i].initial == Ready && cells[i].estimate == None
  }

  /** Which gate a manifest gets: unknown prices first, then the budget, then its absence. */
  lemma GateMeans(cells: seq<Cell>, hardBudget: Option<real>, reserveFraction: real, requireHardBudget: bool)
    ensures var gate := GateFor(cells, hardBudget, reserveFraction, requireHardBudget);
      var cost := KnownCost(cells) + reserveFraction * KnownCost(cells);
      if exists i :: UnpricedReady(cells, i) then gate == BlockedUnknownPrices
      else
        match hardBudget
        case None => gate == (if requireHardBudget then BlockedNoHardBudget else AdvisoryNoHardBudget)
        case Some(budget) => gate == (if cost > budget then BlockedBudgetExceeded else Pass)
    ensures forall gate: Gate :: BlocksExecution(gate) <==> gate != Pass && gate != AdvisoryNoHardBudget
  {
    hide KnownCost;
    var known := KnownCost(cells);
    assert known * (1.0 + reserveFraction) == known + reserveFraction * known;
    if SomeReadyUnpriced(cells) {
      var i :| 0 <= i < |cells| && cells[i].initial.Ready? && cells[i].estimate.None?;
      assert UnpricedReady(cells, i);
    }
  }
}
