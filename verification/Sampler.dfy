/** The stratified calibration sample: what is selected, and in which order. */
module Sampler {
  import opened Prelude
  import opened Sorting
  import opened RoundRobin
  import Text

  datatype RawCandidate = Candidate(
    artifact: string,
    task: string,
    model: string,
    stratum: string,
    score: real,
    disagreement: real,
    valid: bool)

  /** The checks made when a candidate is constructed. */
  type Candidate = c: RawCandidate |
    c.artifact != "" && c.task != "" && c.model != "" && 0.0 <= c.score <= 1.0 && 0.0 <= c.disagreement <= 1.0
    witness Candidate("a", "t", "m", "", 0.0, 0.0, true)

  function ScoreBand(c: Candidate): string {
    if !c.valid then "invalid"
    else if c.score < 0.4 then "low"
    else if c.score <= 0.7 then "decision-boundary"
    else "high"
  }

  function DisagreementBand(c: Candidate): string {
    if c.disagreement >= 0.2 then "high-disagreement" else "low-disagreement"
  }

  /** The name of a candidate's sampling cell. */
  function CellOf(c: Candidate): string {
    c.stratum + "|" + c.model + "|" + ScoreBand(c) + "|" + DisagreementBand(c)
  }

  function ArtifactOf(c: Candidate): string {
    c.artifact
  }

  /** The two seeded shuffles: of one cell's rows, and of the cells. */
  type RowShuffle = (string, seq<Candidate>) -> seq<Candidate>
  type CellShuffle = seq<string> -> seq<string>

  ghost predicate Shuffles(rows: RowShuffle, cells: CellShuffle) {
    && (forall cell, s :: multiset(rows(cell, s)) == multiset(s))
    && (forall s :: multiset(cells(s)) == multiset(s))
  }

  // ---------------------------------------------------------------- groups

  /** The members of a cell, in input order. */
  function Members(values: seq<Candidate>, cell: string): (r: seq<Candidate>)
    ensures forall c :: c in r <==> c in values && CellOf(c) == cell
  {
    if values == [] then []
    else
      var c := values[|values| - 1];
      assert values == values[..|values| - 1] + [c];
      Members(values[..|values| - 1], cell) + (if CellOf(c) == cell then [c] else [])
  }

  /** The cells that occur, in the order in which they are first seen. */
  function Cells(values: seq<Candidate>): (r: seq<string>)
    ensures Distinct(r)
    ensures forall cell :: cell in r <==> exists c :: c in values && CellOf(c) == cell
  {
    if values == [] then []
    else
      var last := values[|values| - 1];
      assert values == values[..|values| - 1] + [last];
      var r := Cells(values[..|values| - 1]);
      assert forall i | 0 <= i < |r| :: r[i] in r;
      if CellOf(last) in r then r else r + [CellOf(last)]
  }

  function Rows(values: seq<Candidate>, rows: RowShuffle, cell: string): seq<Candidate> {
    rows(cell, Sort(Members(values, cell), ArtifactOf))
  }

  function Order(values: seq<Candidate>, cells: CellShuffle): seq<string> {
    cells(Sort(Cells(values), Self))
  }

  function Columns(values: seq<Candidate>, rows: RowShuffle, cells: CellShuffle): (r: seq<seq<Candidate>>) {
    var order := Order(values, cells);
    seq(|order|, i requires 0 <= i < |order| => Rows(values, rows, order[i]))
  }

  function Lengths(columns: seq<seq<Candidate>>): (r: seq<nat>)
    ensures |r| == |columns| && forall i | 0 <= i < |r| :: r[i] == |columns[i]|
  {
    seq(|columns|, i requires 0 <= i < |columns| => |columns[i]|)
  }

  /** The candidates in the given slots; a slot that does not exist holds none. */
  function At(columns: seq<seq<Candidate>>, slots: seq<Slot>): (r: seq<Candidate>)
    requires forall k | 0 <= k < |slots| :: Exists(Lengths(columns), slots[k])
    ensures |r| == |slots|
  {
    seq(|slots|, k requires 0 <= k < |slots| && Exists(Lengths(columns), slots[k]) =>
      columns[slots[k].list][slots[k].position])
  }

  /** All candidates in the order in which they would be selected. */
  function Ranking(columns: seq<seq<Candidate>>): (r: seq<Candidate>)
    ensures |r| == |All(Lengths(columns))|
  {
    AllExist(columns);
    At(columns, All(Lengths(columns)))
  }

  lemma AllExist(columns: seq<seq<Candidate>>)
    ensures forall k | 0 <= k < |All(Lengths(columns))| :: Exists(Lengths(columns), All(Lengths(columns))[k])
  {
    AllIs(Lengths(columns));
    var all := All(Lengths(columns));
    forall k | 0 <= k < |all| ensures Exists(Lengths(columns), all[k]) {
      assert all[k] in all;
    }
  }

  /** The sample for a target: the first so many of the ranking. */
  function Sample(values: seq<Candidate>, rows: RowShuffle, cells: CellShuffle, target: int): seq<Candidate>
    requires 1 <= target
  {
    var ranking := Ranking(Columns(values, rows, cells));
    ranking[..Min(target, |ranking|)]
  }

  // ---------------------------------------------------------------- the ranking is a permutation

  lemma MembersNone(cell: string)
    ensures Members([], cell) == []
  {
  }

  lemma {:induction false} MembersLengths(values: seq<Candidate>, order: seq<string>)
    requires Distinct(order) && forall c | c in values :: CellOf(c) in order
    ensures Total(MemberCounts(values, order)) == |values|
  {
    hide CellOf, Cells, Members, Total;
    if values == [] {
      forall i | 0 <= i < |order| ensures Members(values, order[i]) == [] {
        MembersNone(order[i]);
      }
      TotalZero(MemberCounts(values, order));
    } else {
      var n := |values| - 1;
      assert values == values[..n] + [values[n]];
      assert values[n] in values;
      MembersLengths(values[..n], order);
      var i :| 0 <= i < |order| && order[i] == CellOf(values[n]);
      var before := MemberCounts(values[..n], order);
      forall j | 0 <= j < |order| ensures MemberCounts(values, order)[j] == before[j] + (if j == i then 1 else 0) {
        MembersSnoc(values, n, order[j]);
        assert values[..n + 1] == values;
      }
      assert MemberCounts(values, order) == before[i := before[i] + 1];
      TotalUpdate(before, i, before[i] + 1);
    }
  }

  function MemberCounts(values: seq<Candidate>, order: seq<string>): seq<nat> {
    seq(|order|, i requires 0 <= i < |order| => |Members(values, order[i])|)
  }

  lemma OrderIs(values: seq<Candidate>, rows: RowShuffle, cells: CellShuffle)
    requires Shuffles(rows, cells)
    ensures Distinct(Order(values, cells))
    ensures forall cell :: cell in Order(values, cells) <==> cell in Cells(values)
  {
    var sorted := Sort(Cells(values), Self);
    SortKeeps(Cells(values), Self);
    SameElements(Cells(values), sorted);
    SameElements(sorted, Order(values, cells));
    assert KeysDistinct(Cells(values), Self);
    KeysDistinctPermuted(Cells(values), Order(values, cells), Self);
  }

  /** A cell's rows are its members, each once. */
  lemma RowsAre(values: seq<Candidate>, rows: RowShuffle, cells: CellShuffle, cell: string)
    requires Shuffles(rows, cells) && KeysDistinct(values, ArtifactOf)
    ensures var r := Rows(values, rows, cell);
      && |r| == |Members(values, cell)|
      && KeysDistinct(r, ArtifactOf)
      && forall c :: c in r <==> c in values && CellOf(c) == cell
  {
    var members := Members(values, cell);
    SortKeeps(members, ArtifactOf);
    SameElements(members, Rows(values, rows, cell));
    MembersDistinct(values, cell);
    KeysDistinctPermuted(members, Rows(values, rows, cell), ArtifactOf);
  }

  lemma {:induction false} MembersDistinct(values: seq<Candidate>, cell: string)
    requires KeysDistinct(values, ArtifactOf)
    ensures KeysDistinct(Members(values, cell), ArtifactOf)
  {
    if values != [] {
      var n := |values| - 1;
      MembersDistinct(values[..n], cell);
      var before := Members(values[..n], cell);
      forall i | 0 <= i < |before| ensures ArtifactOf(before[i]) != ArtifactOf(values[n]) {
        assert before[i] in before;
        assert before[i] in values[..n];
      }
    }
  }

  lemma ColumnsAre(values: seq<Candidate>, rows: RowShuffle, cells: CellShuffle)
    requires Shuffles(rows, cells) && KeysDistinct(values, ArtifactOf)
    ensures var columns, order := Columns(values, rows, cells), Order(values, cells);
      && |columns| == |order|
      && Lengths(columns) == MemberCounts(values, order)
      && |Ranking(columns)| == |values|
  {
    var columns, order := Columns(values, rows, cells), Order(values, cells);
    forall i | 0 <= i < |order| ensures |columns[i]| == |Members(values, order[i])| {
      RowsAre(values, rows, cells, order[i]);
    }
    OrderIs(values, rows, cells);
    MembersLengths(values, order);
    AllLength(Lengths(columns));
  }

  /** The whole ranking lists every candidate exactly once. */
  lemma RankingIsPermutation(values: seq<Candidate>, rows: RowShuffle, cells: CellShuffle)
    requires Shuffles(rows, cells) && KeysDistinct(values, ArtifactOf)
    ensures var ranking := Ranking(Columns(values, rows, cells));
      && |ranking| == |values|
      && KeysDistinct(ranking, ArtifactOf)
      && forall c | c in ranking :: c in values
  {
    var columns := Columns(values, rows, cells);
    var slots := All(Lengths(columns));
    var ranking := Ranking(columns);
    ColumnsAre(values, rows, cells);
    AllIs(Lengths(columns));
    AllExist(columns);
    forall k | 0 <= k < |ranking| ensures ranking[k] in values {
      SlotHolds(values, rows, cells, slots[k]);
    }
    forall k, l | 0 <= k < l < |ranking| ensures ArtifactOf(ranking[k]) != ArtifactOf(ranking[l]) {
      SlotsDiffer(values, rows, cells, slots[k], slots[l]);
    }
  }

  lemma SlotHolds(values: seq<Candidate>, rows: RowShuffle, cells: CellShuffle, s: Slot)
    requires Shuffles(rows, cells) && KeysDistinct(values, ArtifactOf)
    requires Exists(Lengths(Columns(values, rows, cells)), s)
    ensures var c := Columns(values, rows, cells)[s.list][s.position];
      c in values && CellOf(c) == Order(values, cells)[s.list]
  {
    var cell := Order(values, cells)[s.list];
    RowsAre(values, rows, cells, cell);
    assert Columns(values, rows, cells)[s.list][s.position] in Rows(values, rows, cell);
  }

  lemma SlotsDiffer(values: seq<Candidate>, rows: RowShuffle, cells: CellShuffle, s: Slot, t: Slot)
    requires Shuffles(rows, cells) && KeysDistinct(values, ArtifactOf)
    requires Exists(Lengths(Columns(values, rows, cells)), s) && Exists(Lengths(Columns(values, rows, cells)), t)
    requires s != t
    ensures var columns := Columns(values, rows, cells);
      ArtifactOf(columns[s.list][s.position]) != ArtifactOf(columns[t.list][t.position])
  {
    var columns, order := Columns(values, rows, cells), Order(values, cells);
    SlotHolds(values, rows, cells, s);
    SlotHolds(values, rows, cells, t);
    OrderIs(values, rows, cells);
    if s.list == t.list {
      RowsAre(values, rows, cells, order[s.list]);
    } else {
      var c, d := columns[s.list][s.position], columns[t.list][t.position];
      var i :| 0 <= i < |values| && values[i] == c;
      var j :| 0 <= j < |values| && values[j] == d;
      assert order[s.list] != order[t.list];
      assert i != j;
    }
  }

  /** Exactly min(target, n) candidates are selected, all of them different artifacts. */
  lemma SampleIsDistinct(values: seq<Candidate>, rows: RowShuffle, cells: CellShuffle, target: int)
    requires Shuffles(rows, cells) && KeysDistinct(values, ArtifactOf) && 1 <= target
    ensures var sample := Sample(values, rows, cells, target);
      && |sample| == Min(target, |values|)
      && KeysDistinct(sample, ArtifactOf)
      && forall c | c in sample :: c in values
  {
    RankingIsPermutation(values, rows, cells);
  }

  /** A smaller target's sample is a prefix of a larger one's. */
  lemma SampleGrows(values: seq<Candidate>, rows: RowShuffle, cells: CellShuffle, target: int, target': int)
    requires 1 <= target <= target'
    ensures Sample(values, rows, cells, target) <= Sample(values, rows, cells, target')
  {
  }

  // ---------------------------------------------------------------- fairness between strata

  /** How many of the selected candidates are from the cell. */
  function Selected(sample: seq<Candidate>, cell: string): nat {
    if sample == [] then 0
    else Selected(sample[..|sample| - 1], cell) + (if CellOf(sample[|sample| - 1]) == cell then 1 else 0)
  }

  /** The k-th ranked candidate is from the cell of the k-th slot's list. */
  lemma RankedFrom(values: seq<Candidate>, rows: RowShuffle, cells: CellShuffle, k: nat, i: nat)
    requires Shuffles(rows, cells) && KeysDistinct(values, ArtifactOf)
    requires i < |Order(values, cells)| && k < |Ranking(Columns(values, rows, cells))|
    ensures var columns := Columns(values, rows, cells);
      CellOf(Ranking(columns)[k]) == Order(values, cells)[i] <==> All(Lengths(columns))[k].list == i
  {
    hide CellOf, All, Order, Rows;
    var columns := Columns(values, rows, cells);
    AllExist(columns);
    OrderIs(values, rows, cells);
    SlotHolds(values, rows, cells, All(Lengths(columns))[k]);
  }

  lemma {:induction false} SelectedIsTaken(values: seq<Candidate>, rows: RowShuffle, cells: CellShuffle, k: nat, i: nat)
    requires Shuffles(rows, cells) && KeysDistinct(values, ArtifactOf)
    requires i < |Order(values, cells)| && k <= |Ranking(Columns(values, rows, cells))|
    ensures var columns := Columns(values, rows, cells);
      Selected(Ranking(columns)[..k], Order(values, cells)[i]) == Taken(All(Lengths(columns))[..k], i)
  {
    hide CellOf, All, Order, Columns, Shuffles, KeysDistinct, Ranking;
    if k > 0 {
      var ranking, slots := Ranking(Columns(values, rows, cells)), All(Lengths(Columns(values, rows, cells)));
      SelectedIsTaken(values, rows, cells, k - 1, i);
      RankedFrom(values, rows, cells, k - 1, i);
      assert ranking[..k][..k - 1] == ranking[..k - 1];
      assert slots[..k][..k - 1] == slots[..k - 1];
    }
  }

  /** No stratum is ever more than one ahead of a stratum that still has candidates left. */
  lemma StrataStayEven(values: seq<Candidate>, rows: RowShuffle, cells: CellShuffle, target: int, a: string, b: string)
    requires Shuffles(rows, cells) && KeysDistinct(values, ArtifactOf) && 1 <= target
    requires a in Cells(values) && b in Cells(values)
    requires Selected(Sample(values, rows, cells, target), a) < |Members(values, a)|
    ensures Selected(Sample(values, rows, cells, target), b) <= Selected(Sample(values, rows, cells, target), a) + 1
  {
    var order := Order(values, cells);
    OrderIs(values, rows, cells);
    ColumnsAre(values, rows, cells);
    var i :| 0 <= i < |order| && order[i] == a;
    var j :| 0 <= j < |order| && order[j] == b;
    var k := Min(target, |values|);
    SelectedIsTaken(values, rows, cells, k, i);
    SelectedIsTaken(values, rows, cells, k, j);
    RoundRobinIsFair(Lengths(Columns(values, rows, cells)), k, i, j);
  }

  // ---------------------------------------------------------------- input order is irrelevant

  lemma {:induction false} MembersCount(values: seq<Candidate>, cell: string, c: Candidate)
    ensures multiset(Members(values, cell))[c] == if CellOf(c) == cell then multiset(values)[c] else 0
  {
    hide CellOf, Members;
    MembersNone(cell);
    if values != [] {
      var n := |values| - 1;
      MembersCount(values[..n], cell, c);
      MembersSnoc(values, n, cell);
      assert values[..n + 1] == values;
      assert values == values[..n] + [values[n]];
    }
  }

  /** Permuting the input changes nothing. */
  lemma SampleIgnoresOrder(values: seq<Candidate>, values': seq<Candidate>, rows: RowShuffle, cells: CellShuffle,
                           target: int)
    requires Shuffles(rows, cells) && KeysDistinct(values, ArtifactOf) && 1 <= target
    requires multiset(values) == multiset(values')
    ensures Sample(values, rows, cells, target) == Sample(values', rows, cells, target)
  {
    SameElements(values, values');
    forall cell ensures Rows(values, rows, cell) == Rows(values', rows, cell) {
      forall c ensures multiset(Members(values, cell))[c] == multiset(Members(values', cell))[c] {
        MembersCount(values, cell, c);
        MembersCount(values', cell, c);
      }
      MembersDistinct(values, cell);
      SortForgets(Members(values, cell), Members(values', cell), ArtifactOf);
    }
    SameCells(Cells(values), Cells(values'));
    SortForgets(Cells(values), Cells(values'), Self);
    assert Order(values, cells) == Order(values', cells);
    assert Columns(values, rows, cells) == Columns(values', rows, cells);
  }

  lemma SameCells(s: seq<string>, t: seq<string>)
    requires Distinct(s) && Distinct(t) && forall x :: x in s <==> x in t
    ensures multiset(s) == multiset(t)
  {
    forall x ensures multiset(s)[x] == multiset(t)[x] {
      if x in s {
        var i :| 0 <= i < |s| && s[i] == x;
        var j :| 0 <= j < |t| && t[j] == x;
        OnceIn(s, Self, i);
        OnceIn(t, Self, j);
      }
    }
  }

  // ---------------------------------------------------------------- the loop

  datatype SampleError = TargetNotPositive | DuplicateArtifacts | NoCandidates

  /** The stable digest of prefix, seed, artifact and position: a free constructor, so it is injective. */
  datatype SelectionId = Cal(seed: int, artifact: string, position: nat)

  datatype Selection = Selection(
    id: SelectionId,
    candidate: Candidate,
    scoreBand: string,
    disagreementBand: string,
    cell: string,
    order: nat)

  /** The selections that carry a list of candidates, numbered from one. */
  function Selections(sample: seq<Candidate>, seed: int): (r: seq<Selection>)
    ensures |r| == |sample|
    ensures forall i, j | 0 <= i < j < |r| :: r[i].id != r[j].id
  {
    seq(|sample|, k requires 0 <= k < |sample| =>
      var c := sample[k];
      Selection(Cal(seed, c.artifact, k), c, ScoreBand(c), DisagreementBand(c), CellOf(c), k + 1))
  }

  ghost predicate Groups(values: seq<Candidate>, names: seq<string>, grouped: map<string, seq<Candidate>>) {
    && names == Cells(values)
    && (forall name :: name in grouped <==> name in names)
    && forall name | name in names :: grouped[name] == Members(values, name)
  }

  /** The grouping loop: rows by cell, and the cells as first seen. */
  method Group(values: seq<Candidate>) returns (names: seq<string>, grouped: map<string, seq<Candidate>>)
    ensures Groups(values, names, grouped)
  {
    names, grouped := [], map[];
    assert Groups(values[..0], names, grouped);
    hide Groups, Members, Cells, CellOf;
    for k := 0 to |values|
      invariant Groups(values[..k], names, grouped)
    {
      var cell := CellOf(values[k]);
      GroupOne(values, k, names, grouped);
      var was := if cell in grouped then grouped[cell] else [];
      if cell !in grouped {
        names := names + [cell];
      }
      grouped := grouped[cell := was + [values[k]]];
    }
    assert values[..|values|] == values;
  }

  lemma GroupOne(values: seq<Candidate>, k: nat, names: seq<string>, grouped: map<string, seq<Candidate>>)
    requires k < |values| && Groups(values[..k], names, grouped)
    ensures var cell := CellOf(values[k]);
      var names' := if cell in grouped then names else names + [cell];
      var was := if cell in grouped then grouped[cell] else [];
      Groups(values[..k + 1], names', grouped[cell := was + [values[k]]])
  {
    hide CellOf, Members, Cells;
    var cell := CellOf(values[k]);
    var names' := if cell in grouped then names else names + [cell];
    var was := if cell in grouped then grouped[cell] else [];
    var grouped' := grouped[cell := was + [values[k]]];
    CellsSnoc(values, k);
    assert names' == Cells(values[..k + 1]);
    if cell !in names {
      NoMembers(values[..k], cell);
    }
    forall name | name in names' ensures grouped'[name] == Members(values[..k + 1], name) {
      MembersSnoc(values, k, name);
    }
    forall name ensures name in names' <==> name in names || name == cell {}
  }

  lemma MembersSnoc(values: seq<Candidate>, k: nat, cell: string)
    requires k < |values|
    ensures Members(values[..k + 1], cell)
         == Members(values[..k], cell) + (if CellOf(values[k]) == cell then [values[k]] else [])
  {
    assert values[..k + 1][..k] == values[..k];
  }

  lemma CellsSnoc(values: seq<Candidate>, k: nat)
    requires k < |values|
    ensures var r := Cells(values[..k]);
      Cells(values[..k + 1]) == if CellOf(values[k]) in r then r else r + [CellOf(values[k])]
  {
    assert values[..k + 1][..k] == values[..k];
  }

  lemma NoMembers(values: seq<Candidate>, cell: string)
    requires cell !in Cells(values)
    ensures Members(values, cell) == []
  {
    hide CellOf;
    var m := Members(values, cell);
    assert forall i | 0 <= i < |m| :: m[i] in m;
  }

  function Artifacts(values: seq<Candidate>): set<string> {
    set c | c in values :: c.artifact
  }

  method DuplicateFree(values: seq<Candidate>) returns (free: bool)
    ensures free <==> KeysDistinct(values, ArtifactOf)
  {
    ArtifactCount(values);
    free := |values| == |Artifacts(values)|;
  }

  lemma ArtifactsSnoc(values: seq<Candidate>, c: Candidate)
    ensures Artifacts(values + [c]) == Artifacts(values) + {c.artifact}
  {
  }

  /** As many identifiers as candidates exactly when no identifier repeats. */
  lemma {:induction false} ArtifactCount(values: seq<Candidate>)
    ensures |Artifacts(values)| <= |values|
    ensures |Artifacts(values)| == |values| <==> KeysDistinct(values, ArtifactOf)
  {
    if values != [] {
      var n := |values| - 1;
      ArtifactCount(values[..n]);
      assert values == values[..n] + [values[n]];
      ArtifactsSnoc(values[..n], values[n]);
      ArtifactRepeats(values[..n], values[n]);
    }
  }

  lemma ArtifactRepeats(values: seq<Candidate>, c: Candidate)
    ensures KeysDistinct(values + [c], ArtifactOf) <==>
      KeysDistinct(values, ArtifactOf) && c.artifact !in Artifacts(values)
  {
    var all := values + [c];
    var key := ArtifactOf;
    if c.artifact in Artifacts(values) {
      var x :| x in values && x.artifact == c.artifact;
      var i :| 0 <= i < |values| && values[i] == x;
      assert key(all[i]) == key(all[|values|]);
    } else {
      forall i | 0 <= i < |values| ensures key(all[i]) != key(c) {
        assert values[i] in values;
      }
    }
    if KeysDistinct(all, key) {
      forall i, j | 0 <= i < j < |values| ensures key(values[i]) != key(values[j]) {
        assert all[i] == values[i] && all[j] == values[j];
      }
    }
  }

  /**
   * select_calibration_sample: the errors in the order of the checks, and otherwise the sample.
   * A round that selects nothing cannot happen before the sample is complete.
   */
  method Select(values: seq<Candidate>, rows: RowShuffle, cells: CellShuffle, target: int, seed: int)
    returns (r: Result<seq<Selection>, SampleError>)
    requires Shuffles(rows, cells)
    ensures r == if target < 1 then Err(TargetNotPositive)
      else if !KeysDistinct(values, ArtifactOf) then Err(DuplicateArtifacts)
      else if values == [] then Err(NoCandidates)
      else Ok(Selections(Sample(values, rows, cells, target), seed))
  {
    if target < 1 {
      return Err(TargetNotPositive);
    }
    var free := DuplicateFree(values);
    if !free {
      return Err(DuplicateArtifacts);
    }
    if values == [] {
      return Err(NoCandidates);
    }
    var order, grouped := Prepare(values, rows, cells);
    ColumnsAre(values, rows, cells);
    var sample := RoundRobinLoop(order, grouped, Columns(values, rows, cells), Min(target, |values|));
    r := Ok(Selections(sample, seed));
  }

  /** Each cell's rows are sorted and shuffled in place. */
  method ShuffleRows(ghost values: seq<Candidate>, names: seq<string>, grouped: map<string, seq<Candidate>>,
                     rows: RowShuffle)
    returns (r: map<string, seq<Candidate>>)
    requires Distinct(names) && forall name | name in names :: name in grouped && grouped[name] == Members(values, name)
    ensures forall name | name in names :: name in r && r[name] == Rows(values, rows, name)
  {
    hide Members, Sort, Rows;
    r := grouped;
    for i := 0 to |names|
      invariant forall k | 0 <= k < i :: names[k] in r && r[names[k]] == Rows(values, rows, names[k])
      invariant forall k | i <= k < |names| :: names[k] in r && r[names[k]] == Members(values, names[k])
    {
      var cell := names[i];
      var shuffled := rows(cell, Sort(r[cell], ArtifactOf));
      RowsOf(values, rows, cell);
      r := r[cell := shuffled];
    }
  }

  lemma RowsOf(values: seq<Candidate>, rows: RowShuffle, cell: string)
    ensures Rows(values, rows, cell) == rows(cell, Sort(Members(values, cell), ArtifactOf))
  {
  }

  /** Each cell's rows sorted and shuffled, and the cells sorted and shuffled. */
  method Prepare(values: seq<Candidate>, rows: RowShuffle, cells: CellShuffle)
    returns (order: seq<string>, grouped: map<string, seq<Candidate>>)
    requires Shuffles(rows, cells)
    ensures order == Order(values, cells)
    ensures forall i | 0 <= i < |order| :: order[i] in grouped && grouped[order[i]] == Columns(values, rows, cells)[i]
  {
    hide CellOf, Shuffles, Members, Cells, Sort, Rows;
    OrderIs(values, rows, cells);
    var names: seq<string>;
    names, grouped := Group(values);
    grouped := ShuffleRows(values, names, grouped, rows);
    order := cells(Sort(names, Self));
    forall i | 0 <= i < |order| ensures order[i] in grouped && grouped[order[i]] == Columns(values, rows, cells)[i] {
      assert order[i] in names;
    }
  }

  method RoundRobinLoop(order: seq<string>, grouped: map<string, seq<Candidate>>, ghost columns: seq<seq<Candidate>>,
                        limit: nat)
    returns (selected: seq<Candidate>)
    requires |order| == |columns|
    requires forall i | 0 <= i < |order| :: order[i] in grouped && grouped[order[i]] == columns[i]
    requires limit <= |Ranking(columns)|
    ensures selected == Ranking(columns)[..limit]
  {
    ghost var lens := Lengths(columns);
    AllLength(lens);
    hide Ranking, Rounds, Turn, Upto, All, Total, Longest;
    selected := [];
    var cursor := 0;
    NoRounds(lens);
    while |selected| < limit
      invariant |selected| <= limit && selected == Ranking(columns)[..|selected|]
      invariant |selected| < limit ==> |selected| == |Rounds(lens, cursor)|
      decreases limit - |selected|
    {
      RoundProgresses(lens, cursor);
      UptoNext(lens, cursor, 0);
      ghost var before := |selected|;
      var progressed := false;
      for i := 0 to |order|
        invariant before <= |selected| < limit && selected == Ranking(columns)[..|selected|]
        invariant |selected| == |Upto(lens, cursor, i)|
        invariant progressed <==> |selected| > before
      {
        UptoNext(lens, cursor, i);
        var rows := grouped[order[i]];
        if cursor >= |rows| {
          continue;
        }
        NextRanked(columns, cursor, i);
        selected := selected + [rows[cursor]];
        progressed := true;
        if |selected| >= limit {
          break;
        }
      }
      UptoNext(lens, cursor, |lens|);
      assert progressed;
      if !progressed {
        break;
      }
      cursor := cursor + 1;
    }
  }

  lemma NoRounds(lens: seq<nat>)
    ensures Rounds(lens, 0) == []
  {
  }

  /** The slot at the loop's position is the next of the ranking. */
  lemma NextRanked(columns: seq<seq<Candidate>>, cursor: nat, i: nat)
    requires i < |columns| && cursor < |columns[i]|
    ensures var k := |Upto(Lengths(columns), cursor, i)|;
      k < |Ranking(columns)| && Ranking(columns)[k] == columns[i][cursor]
  {
    var lens := Lengths(columns);
    var k := |Upto(lens, cursor, i)|;
    LongestBounds(lens, i);
    UptoPrefix(lens, cursor, i + 1);
    assert Upto(lens, cursor, i + 1) == Upto(lens, cursor, i) + [Slot(i, cursor)];
    assert All(lens)[k] == Slot(i, cursor);
  }

  // ---------------------------------------------------------------- bands, rows and selections

  /** The score bands: up to 0.4, from there to 0.7 inclusive, above; invalid candidates apart. */
  lemma BandsMean(c: Candidate)
    ensures ScoreBand(c) == "invalid" <==> !c.valid
    ensures ScoreBand(c) == "low" <==> c.valid && c.score < 0.4
    ensures ScoreBand(c) == "decision-boundary" <==> c.valid && 0.4 <= c.score <= 0.7
    ensures ScoreBand(c) == "high" <==> c.valid && c.score > 0.7
    ensures DisagreementBand(c) == "high-disagreement" <==> c.disagreement >= 0.2
    ensures DisagreementBand(c) == "low-disagreement" <==> c.disagreement < 0.2
  {
  }

  /** A cell's name: stratum, model, score band and disagreement band, with bars between. */
  lemma CellMeans(c: Candidate)
    ensures var name := CellOf(c);
      var p, q, r := |c.stratum|, |c.model|, |ScoreBand(c)|;
      && |name| == p + q + r + |DisagreementBand(c)| + 3
      && name[..p] == c.stratum && name[p] == '|'
      && name[p + 1..p + 1 + q] == c.model && name[p + 1 + q] == '|'
      && name[p + q + 2..p + q + 2 + r] == ScoreBand(c) && name[p + q + 2 + r] == '|'
      && name[p + q + 3 + r..] == DisagreementBand(c)
  {
    hide ScoreBand, DisagreementBand;
  }

  /** What a cell's shuffle is given: the members of the cell, ascending by artifact identifier. */
  lemma RowsMean(values: seq<Candidate>, rows: RowShuffle, cell: string) returns (sorted: seq<Candidate>)
    requires KeysDistinct(values, ArtifactOf)
    ensures Rows(values, rows, cell) == rows(cell, sorted)
    ensures forall c :: c in sorted <==> c in values && CellOf(c) == cell
    ensures forall i, j | 0 <= i < j < |sorted| :: Text.Less(sorted[i].artifact, sorted[j].artifact)
  {
    hide CellOf, Sort;
    var members := Members(values, cell);
    sorted := Sort(members, ArtifactOf);
    MembersDistinct(values, cell);
    SortKeeps(members, ArtifactOf);
    SameElements(members, sorted);
    SortAscends(members, ArtifactOf);
    forall i, j | 0 <= i < j < |sorted| ensures Text.Less(sorted[i].artifact, sorted[j].artifact) {
      assert Text.Less(ArtifactOf(sorted[i]), ArtifactOf(sorted[j]));
    }
  }

  /** And the shuffle of the cells: the names that occur, ascending. */
  lemma OrderMeans(values: seq<Candidate>, cells: CellShuffle) returns (sorted: seq<string>)
    ensures Order(values, cells) == cells(sorted)
    ensures forall name :: name in sorted <==> exists c :: c in values && CellOf(c) == name
    ensures forall i, j | 0 <= i < j < |sorted| :: Text.Less(sorted[i], sorted[j])
  {
    hide CellOf, Sort;
    sorted := Sort(Cells(values), Self);
    SortKeeps(Cells(values), Self);
    SameElements(Cells(values), sorted);
    assert KeysDistinct(Cells(values), Self);
    SortAscends(Cells(values), Self);
    forall i, j | 0 <= i < j < |sorted| ensures Text.Less(sorted[i], sorted[j]) {
      assert Text.Less(Self(sorted[i]), Self(sorted[j]));
    }
  }

  /** A selection: its candidate, bands and cell, numbered from one, with an id of its own. */
  lemma SelectionMeans(sample: seq<Candidate>, seed: int, k: nat)
    requires k < |sample|
    ensures Selections(sample, seed)[k] ==
      Selection(Cal(seed, sample[k].artifact, k), sample[k], ScoreBand(sample[k]), DisagreementBand(sample[k]),
                CellOf(sample[k]), k + 1)
  {
  }

  /** The columns are the cells' rows, in the order of the cells. */
  lemma ColumnMeans(values: seq<Candidate>, rows: RowShuffle, cells: CellShuffle, i: nat)
    requires i < |Order(values, cells)|
    ensures var columns := Columns(values, rows, cells);
      |columns| == |Order(values, cells)| && columns[i] == Rows(values, rows, Order(values, cells)[i])
  {
    hide Order, Rows;
  }

  /** The k-th of the sample is in the slot that comes k-th, one position after another over the columns. */
  lemma SampleMeans(values: seq<Candidate>, rows: RowShuffle, cells: CellShuffle, target: int, k: nat)
    requires Shuffles(rows, cells) && KeysDistinct(values, ArtifactOf) && 1 <= target && k < target && k < |values|
    ensures var sample, columns := Sample(values, rows, cells, target), Columns(values, rows, cells);
      && |sample| == (if target <= |values| then target else |values|)
      && k < |All(Lengths(columns))| && Exists(Lengths(columns), All(Lengths(columns))[k])
      && sample[k] == columns[All(Lengths(columns))[k].list][All(Lengths(columns))[k].position]
  {
    hide All, Columns, Shuffles, KeysDistinct;
    ColumnsAre(values, rows, cells);
    AllExist(Columns(values, rows, cells));
  }
}
