/**
 * Evenness between crossings of stratum, model, score band and disagreement band. The sampler
 * groups by a joined name, and different crossings can share one.
 */
module SamplerStrata {
  import opened Sorting
  import opened RoundRobin
  import opened Sampler

  datatype Crossing = Crossing(stratum: string, model: string, score: string, disagreement: string)

  function CrossingOf(c: Candidate): Crossing {
    Crossing(c.stratum, c.model, ScoreBand(c), DisagreementBand(c))
  }

  function NameOf(x: Crossing): string {
    x.stratum + "|" + x.model + "|" + x.score + "|" + x.disagreement
  }

  // ---------------------------------------------------------------- when names tell crossings apart

  predicate BarFree(s: string) {
    '|' !in s
  }

  lemma SplitFirst(a: string, b: string, a': string, b': string)
    requires BarFree(a) && BarFree(a') && a + "|" + b == a' + "|" + b'
    ensures a == a' && b == b'
  {
    var s, s' := a + "|" + b, a' + "|" + b';
    assert s[|a|] == '|' && s'[|a'|] == '|';
    assert a == s[..|a|] && a' == s'[..|a'|];
    assert b == s[|a| + 1..] && b' == s'[|a'| + 1..];
  }

  lemma SplitLast(a: string, b: string, a': string, b': string)
    requires BarFree(b) && BarFree(b') && a + "|" + b == a' + "|" + b'
    ensures a == a' && b == b'
  {
    var s, s' := a + "|" + b, a' + "|" + b';
    assert s[|a|] == '|' && s'[|a'|] == '|';
    assert a == s[..|a|] && a' == s'[..|a'|];
    assert b == s[|a| + 1..] && b' == s'[|a'| + 1..];
  }

  lemma BandsBarFree(c: Candidate)
    ensures BarFree(ScoreBand(c)) && BarFree(DisagreementBand(c))
  {
    BandsMean(c);
    assert BarFree("invalid") && BarFree("low") && BarFree("decision-boundary") && BarFree("high");
    assert BarFree("high-disagreement") && BarFree("low-disagreement");
  }

  /** Two candidates share a name exactly when they share a crossing, if no stratum or no model has a bar. */
  lemma NamesTellApart(c: Candidate, d: Candidate)
    requires (BarFree(c.stratum) && BarFree(d.stratum)) || (BarFree(c.model) && BarFree(d.model))
    ensures CellOf(c) == CellOf(d) <==> CrossingOf(c) == CrossingOf(d)
  {
    hide ScoreBand, DisagreementBand;
    BandsBarFree(c);
    BandsBarFree(d);
    if CellOf(c) == CellOf(d) {
      var p, q := c.stratum + "|" + c.model, d.stratum + "|" + d.model;
      assert CellOf(c) == p + "|" + ScoreBand(c) + "|" + DisagreementBand(c);
      assert CellOf(d) == q + "|" + ScoreBand(d) + "|" + DisagreementBand(d);
      SplitLast(p + "|" + ScoreBand(c), DisagreementBand(c), q + "|" + ScoreBand(d), DisagreementBand(d));
      SplitLast(p, ScoreBand(c), q, ScoreBand(d));
      if BarFree(c.stratum) && BarFree(d.stratum) {
        SplitFirst(c.stratum, c.model, d.stratum, d.model);
      } else {
        SplitLast(c.stratum, c.model, d.stratum, d.model);
      }
    }
  }

  // ---------------------------------------------------------------- evenness over crossings

  /** How many of the candidates are of a crossing. */
  function From(s: seq<Candidate>, x: Crossing): nat {
    if s == [] then 0
    else From(s[..|s| - 1], x) + (if CrossingOf(s[|s| - 1]) == x then 1 else 0)
  }

  /** No crossing is more than one ahead of a crossing that still has candidates. */
  ghost predicate Even(values: seq<Candidate>, sample: seq<Candidate>) {
    forall x, y | From(sample, x) < From(values, x) :: From(sample, y) <= From(sample, x) + 1
  }

  /** Two candidates of different crossings share a name. */
  ghost predicate Collides(values: seq<Candidate>) {
    exists c, d :: c in values && d in values && CellOf(c) == CellOf(d) && CrossingOf(c) != CrossingOf(d)
  }

  predicate SameCrossing(values: seq<Candidate>, i: int, j: int) {
    0 <= i < j < |values| && CrossingOf(values[i]) == CrossingOf(values[j])
  }

  /** Some crossing has two candidates. */
  ghost predicate Repeats(values: seq<Candidate>) {
    exists i, j :: SameCrossing(values, i, j)
  }

  /** The sample is even for every target and however it is shuffled. */
  ghost predicate AlwaysEven(values: seq<Candidate>) {
    forall rows, cells, target: int | Shuffles(rows, cells) && 1 <= target ::
      Even(values, Sample(values, rows, cells, target))
  }

  lemma {:induction false} FromNone(s: seq<Candidate>, x: Crossing)
    ensures From(s, x) == 0 <==> forall k | 0 <= k < |s| :: CrossingOf(s[k]) != x
  {
    hide CrossingOf;
    if s != [] {
      var init := s[..|s| - 1];
      FromNone(init, x);
      assert forall k | 0 <= k < |init| :: init[k] == s[k];
    }
  }

  lemma {:induction false} FromTwo(s: seq<Candidate>, x: Crossing)
    ensures From(s, x) >= 2 <==> exists i, j :: SameCrossing(s, i, j) && CrossingOf(s[i]) == x
  {
    hide CrossingOf;
    if s != [] {
      var n := |s| - 1;
      var init := s[..n];
      FromTwo(init, x);
      FromNone(init, x);
      if i, j :| SameCrossing(init, i, j) && CrossingOf(init[i]) == x {
        assert SameCrossing(s, i, j);
      }
      if i, j :| SameCrossing(s, i, j) && CrossingOf(s[i]) == x && j < n {
        assert SameCrossing(init, i, j);
      }
      if k :| 0 <= k < n && CrossingOf(init[k]) == x && CrossingOf(s[n]) == x {
        assert SameCrossing(s, k, n);
      }
      if i, j :| SameCrossing(s, i, j) && CrossingOf(s[i]) == x && j == n {
        assert CrossingOf(init[i]) == x;
      }
    }
  }

  lemma NamedByCrossing(c: Candidate)
    ensures CellOf(c) == NameOf(CrossingOf(c))
  {
  }

  // ---------------------------------------------------------------- even when names tell apart

  lemma {:induction false} FromIsSelected(values: seq<Candidate>, s: seq<Candidate>, x: Crossing)
    requires !Collides(values) && (forall c | c in s :: c in values)
    requires exists c :: c in values && CrossingOf(c) == x
    ensures From(s, x) == Selected(s, NameOf(x))
  {
    hide CrossingOf, CellOf, NameOf;
    if s != [] {
      var n := |s| - 1;
      FromIsSelected(values, s[..n], x);
      assert s[n] in s;
      var c :| c in values && CrossingOf(c) == x;
      NamedByCrossing(c);
      NamedByCrossing(s[n]);
    }
  }

  lemma {:induction false} MembersAreSelected(values: seq<Candidate>, cell: string)
    ensures |Members(values, cell)| == Selected(values, cell)
  {
    hide CellOf;
    if values != [] {
      MembersAreSelected(values[..|values| - 1], cell);
    }
  }

  lemma EvenWithoutCollision(values: seq<Candidate>, rows: RowShuffle, cells: CellShuffle, target: int)
    requires Shuffles(rows, cells) && KeysDistinct(values, ArtifactOf) && 1 <= target
    requires !Collides(values)
    ensures Even(values, Sample(values, rows, cells, target))
  {
    hide Sample, CrossingOf, CellOf, NameOf, Collides, Shuffles;
    var sample := Sample(values, rows, cells, target);
    SampleIsDistinct(values, rows, cells, target);
    forall x, y | From(sample, x) < From(values, x) ensures From(sample, y) <= From(sample, x) + 1 {
      Occurs(values, x);
      if From(values, y) == 0 {
        NoneSampled(values, sample, y);
      } else {
        Occurs(values, y);
        FromIsSelected(values, sample, x);
        FromIsSelected(values, sample, y);
        FromIsSelected(values, values, x);
        MembersAreSelected(values, NameOf(x));
        StrataStayEven(values, rows, cells, target, NameOf(x), NameOf(y));
      }
    }
  }

  lemma Occurs(values: seq<Candidate>, x: Crossing)
    requires From(values, x) > 0
    ensures exists c :: c in values && CrossingOf(c) == x
    ensures NameOf(x) in Cells(values)
  {
    hide CrossingOf, NameOf, CellOf;
    FromNone(values, x);
    var k :| 0 <= k < |values| && CrossingOf(values[k]) == x;
    NamedByCrossing(values[k]);
    assert values[k] in values;
  }

  lemma NoneSampled(values: seq<Candidate>, sample: seq<Candidate>, y: Crossing)
    requires From(values, y) == 0 && forall c | c in sample :: c in values
    ensures From(sample, y) == 0
  {
    hide CrossingOf;
    FromNone(values, y);
    FromNone(sample, y);
    forall k | 0 <= k < |sample| ensures CrossingOf(sample[k]) != y {
      assert sample[k] in sample;
    }
  }

  lemma EvenWithoutRepeat(values: seq<Candidate>, rows: RowShuffle, cells: CellShuffle, target: int)
    requires Shuffles(rows, cells) && KeysDistinct(values, ArtifactOf) && 1 <= target
    requires !Repeats(values)
    ensures Even(values, Sample(values, rows, cells, target))
  {
    hide Sample, CrossingOf, Shuffles;
    var sample := Sample(values, rows, cells, target);
    SampleIsDistinct(values, rows, cells, target);
    forall y ensures From(sample, y) <= 1 {
      FromTwo(sample, y);
      forall i, j ensures !SameCrossing(sample, i, j) {
        if SameCrossing(sample, i, j) {
          RepeatedInValues(values, sample, i, j);
        }
      }
    }
  }

  lemma RepeatedInValues(values: seq<Candidate>, sample: seq<Candidate>, i: int, j: int)
    requires KeysDistinct(sample, ArtifactOf) && (forall c | c in sample :: c in values)
    requires SameCrossing(sample, i, j)
    ensures Repeats(values)
  {
    hide CrossingOf;
    assert sample[i] in sample && sample[j] in sample;
    var k :| 0 <= k < |values| && values[k] == sample[i];
    var l :| 0 <= l < |values| && values[l] == sample[j];
    assert ArtifactOf(sample[i]) != ArtifactOf(sample[j]);
    assert SameCrossing(values, k, l) || SameCrossing(values, l, k);
  }

  // ---------------------------------------------------------------- uneven otherwise

  function Keep<T>(s: seq<T>, p: T -> bool): seq<T> {
    if s == [] then [] else (if p(s[0]) then [s[0]] else []) + Keep(s[1..], p)
  }

  function Drop<T>(s: seq<T>, p: T -> bool): seq<T> {
    if s == [] then [] else (if p(s[0]) then [] else [s[0]]) + Drop(s[1..], p)
  }

  /** A permutation that moves some elements to the front. */
  function Front<T>(s: seq<T>, p: T -> bool): seq<T> {
    Keep(s, p) + Drop(s, p)
  }

  lemma {:induction false} FrontKeeps<T>(s: seq<T>, p: T -> bool)
    ensures multiset(Front(s, p)) == multiset(s)
  {
    if s != [] {
      FrontKeeps(s[1..], p);
      assert s == [s[0]] + s[1..];
    }
  }

  lemma {:induction false} KeepIs<T>(s: seq<T>, p: T -> bool)
    ensures forall x :: x in Keep(s, p) <==> x in s && p(x)
    ensures forall k | 0 <= k < |Keep(s, p)| :: p(Keep(s, p)[k])
  {
    if s != [] {
      KeepIs(s[1..], p);
      assert s == [s[0]] + s[1..];
    }
  }

  /** The first elements are those moved to the front, as many as there are different ones. */
  lemma FrontStarts<T>(s: seq<T>, p: T -> bool, a: T, b: T)
    requires a in s && b in s && p(a) && p(b)
    ensures Front(s, p) != [] && p(Front(s, p)[0])
    ensures a != b ==> |Front(s, p)| >= 2 && p(Front(s, p)[1])
  {
    hide Drop;
    KeepIs(s, p);
    var k := Keep(s, p);
    assert a in k && b in k;
    assert Front(s, p)[0] == k[0] && p(k[0]);
    if a != b {
      var i :| 0 <= i < |k| && k[i] == a;
      var j :| 0 <= j < |k| && k[j] == b;
      assert Front(s, p)[1] == k[1] && p(k[1]);
    }
  }

  /** The shuffle that puts x first in its own cell, and y last in every other. */
  function Adverse(x: Crossing, y: Crossing): RowShuffle {
    (cell: string, s: seq<Candidate>) =>
      if cell == NameOf(x) then Front(s, (c: Candidate) => CrossingOf(c) == x)
      else Front(s, (c: Candidate) => CrossingOf(c) != y)
  }

  /** The shuffle that puts one cell first. */
  function Leading(name: string): CellShuffle {
    (s: seq<string>) => Front(s, (cell: string) => cell == name)
  }

  lemma AdverseShuffles(x: Crossing, y: Crossing)
    ensures Shuffles(Adverse(x, y), Leading(NameOf(x)))
  {
    hide Front, NameOf;
    var rows, cells := Adverse(x, y), Leading(NameOf(x));
    forall cell, s ensures multiset(rows(cell, s)) == multiset(s) {
      FrontKeeps(s, (c: Candidate) => CrossingOf(c) == x);
      FrontKeeps(s, (c: Candidate) => CrossingOf(c) != y);
    }
    forall s ensures multiset(cells(s)) == multiset(s) {
      FrontKeeps(s, (cell: string) => cell == NameOf(x));
    }
  }

  /** What the adverse shuffles achieve: x leads its list twice, and y leads no list. */
  ghost predicate AdverseStart(values: seq<Candidate>, x: Crossing, y: Crossing) {
    var columns := Columns(values, Adverse(x, y), Leading(NameOf(x)));
    && columns != [] && |columns[0]| >= 2
    && CrossingOf(columns[0][0]) == x && CrossingOf(columns[0][1]) == x
    && forall i | 0 <= i < |columns| && columns[i] != [] :: CrossingOf(columns[i][0]) != y
  }

  lemma AdverseStarts(values: seq<Candidate>, a: Candidate, b: Candidate, c: Candidate, d: Candidate)
    requires KeysDistinct(values, ArtifactOf) && a in values && b in values && c in values && d in values
    requires a != b && CrossingOf(a) == CrossingOf(b)
    requires CellOf(c) == CellOf(d) && CrossingOf(c) != CrossingOf(d) && CrossingOf(d) != CrossingOf(a)
    ensures AdverseStart(values, CrossingOf(a), CrossingOf(d))
  {
    hide Front, CellOf, NameOf, Sort, Members, Cells, CrossingOf, KeysDistinct;
    var x, y := CrossingOf(a), CrossingOf(d);
    var rows, cells := Adverse(x, y), Leading(NameOf(x));
    var order, columns := Order(values, cells), Columns(values, rows, cells);
    AdverseShuffles(x, y);
    OrderIs(values, rows, cells);
    NamedByCrossing(a);
    NamedByCrossing(b);
    NamedByCrossing(d);
    LeadingFirst(values, NameOf(x));
    assert order[0] == NameOf(x);
    RowsOfFirst(values, a, b, y);
    forall i | 0 <= i < |columns| && columns[i] != [] ensures CrossingOf(columns[i][0]) != y {
      RowsStart(values, rows, cells, order[i]);
      NamedByCrossing(columns[i][0]);
      if i > 0 && order[i] == NameOf(y) {
        assert order[i] != NameOf(x);
        RowsOfOther(values, x, c, d);
      }
    }
  }

  lemma RowsStart(values: seq<Candidate>, rows: RowShuffle, cells: CellShuffle, cell: string)
    requires Shuffles(rows, cells) && KeysDistinct(values, ArtifactOf)
    ensures Rows(values, rows, cell) != [] ==> CellOf(Rows(values, rows, cell)[0]) == cell
  {
    hide CellOf;
    RowsAre(values, rows, cells, cell);
    var r := Rows(values, rows, cell);
    assert r != [] ==> r[0] in r;
  }

  lemma LeadingFirst(values: seq<Candidate>, name: string)
    requires name in Cells(values)
    ensures Order(values, Leading(name)) != [] && Order(values, Leading(name))[0] == name
  {
    hide Front, Sort;
    var sorted := Sort(Cells(values), Self);
    SortKeeps(Cells(values), Self);
    SameElements(Cells(values), sorted);
    FrontStarts(sorted, (cell: string) => cell == name, name, name);
  }

  lemma RowsOfFirst(values: seq<Candidate>, a: Candidate, b: Candidate, y: Crossing)
    requires a in values && b in values && a != b && CrossingOf(a) == CrossingOf(b)
    ensures var r := Rows(values, Adverse(CrossingOf(a), y), NameOf(CrossingOf(a)));
      |r| >= 2 && CrossingOf(r[0]) == CrossingOf(a) && CrossingOf(r[1]) == CrossingOf(a)
  {
    hide Front, Sort, CellOf, NameOf, CrossingOf;
    var x := CrossingOf(a);
    var members := Members(values, NameOf(x));
    NamedByCrossing(a);
    NamedByCrossing(b);
    SortKeeps(members, ArtifactOf);
    SameElements(members, Sort(members, ArtifactOf));
    FrontStarts(Sort(members, ArtifactOf), (c: Candidate) => CrossingOf(c) == x, a, b);
  }

  lemma RowsOfOther(values: seq<Candidate>, x: Crossing, c: Candidate, d: Candidate)
    requires c in values && d in values && CellOf(c) == CellOf(d) && CrossingOf(c) != CrossingOf(d)
    requires NameOf(x) != CellOf(d)
    ensures var r := Rows(values, Adverse(x, CrossingOf(d)), CellOf(d));
      r != [] && CrossingOf(r[0]) != CrossingOf(d)
  {
    hide Front, Sort, CellOf, NameOf, CrossingOf;
    var y := CrossingOf(d);
    var members := Members(values, CellOf(d));
    SortKeeps(members, ArtifactOf);
    SameElements(members, Sort(members, ArtifactOf));
    FrontStarts(Sort(members, ArtifactOf), (e: Candidate) => CrossingOf(e) != y, c, c);
  }

  /** After the first list's second turn x is two ahead of y, which has been passed over. */
  lemma AdverseIsUneven(values: seq<Candidate>, x: Crossing, y: Crossing) returns (target: int)
    requires KeysDistinct(values, ArtifactOf) && AdverseStart(values, x, y)
    requires x != y && From(values, y) > 0
    ensures 1 <= target
    ensures !Even(values, Sample(values, Adverse(x, y), Leading(NameOf(x)), target))
  {
    hide Adverse, Leading, NameOf, CrossingOf, Columns, All, Upto;
    var rows, cells := Adverse(x, y), Leading(NameOf(x));
    var columns := Columns(values, rows, cells);
    var lens := Lengths(columns);
    LongestBounds(lens, 0);
    UptoPrefix(lens, 1, 1);
    TakenSlots(lens);
    var taken := Upto(lens, 1, 1);
    target := |taken|;
    AllExist(columns);
    var sample := Ranking(columns)[..target];
    assert All(lens)[..target] == taken;
    assert Sample(values, rows, cells, target) == sample;
    forall k | 0 <= k < target ensures CrossingOf(sample[k]) != y {
      assert All(lens)[k] == taken[k] && taken[k] in taken;
      assert sample[k] == columns[taken[k].list][taken[k].position];
    }
    FromNone(sample, y);
    var p :| 0 <= p < |taken| && taken[p] == Slot(0, 0);
    var q :| 0 <= q < |taken| && taken[q] == Slot(0, 1);
    assert All(lens)[p] == taken[p] && All(lens)[q] == taken[q];
    assert SameCrossing(sample, p, q) || SameCrossing(sample, q, p);
    FromTwo(sample, x);
  }

  lemma TakenSlots(lens: seq<nat>)
    requires lens != [] && lens[0] >= 2
    ensures var taken := Upto(lens, 1, 1);
      && Slot(0, 0) in taken && Slot(0, 1) in taken
      && forall s | s in taken :: Exists(lens, s) && (s.position == 0 || s == Slot(0, 1))
  {
    hide Rounds, Turn;
    RoundsAre(lens, 1);
    TurnIs(lens, 1, 1);
    assert Slot(0, 0) in Rounds(lens, 1);
    assert Slot(0, 1) in Turn(lens, 1, 1);
  }

  /** A collision next to a crossing with two candidates: some shuffle and target lose evenness. */
  lemma CollisionLosesEvenness(values: seq<Candidate>) returns (rows: RowShuffle, cells: CellShuffle, target: int)
    requires KeysDistinct(values, ArtifactOf) && Collides(values) && Repeats(values)
    ensures Shuffles(rows, cells) && 1 <= target && !Even(values, Sample(values, rows, cells, target))
  {
    hide CrossingOf, CellOf, Adverse, Leading, NameOf, Even, Sample;
    var i, j :| SameCrossing(values, i, j);
    var a, b := values[i], values[j];
    assert ArtifactOf(a) != ArtifactOf(b);
    var c, d :| c in values && d in values && CellOf(c) == CellOf(d) && CrossingOf(c) != CrossingOf(d);
    if CrossingOf(d) == CrossingOf(a) {
      c, d := d, c;
    }
    var x, y := CrossingOf(a), CrossingOf(d);
    AdverseShuffles(x, y);
    AdverseStarts(values, a, b, c, d);
    FromNone(values, y);
    target := AdverseIsUneven(values, x, y);
    rows, cells := Adverse(x, y), Leading(NameOf(x));
  }

  /**
   * The sample is even between crossings for every target and shuffle exactly when no two crossings
   * share a name, or no crossing has two candidates.
   */
  lemma EvennessExactly(values: seq<Candidate>)
    requires KeysDistinct(values, ArtifactOf)
    ensures AlwaysEven(values) <==> !Collides(values) || !Repeats(values)
  {
    hide Even, Sample, Collides, Repeats, Shuffles;
    if !Collides(values) || !Repeats(values) {
      forall rows, cells, target: int | Shuffles(rows, cells) && 1 <= target
        ensures Even(values, Sample(values, rows, cells, target))
      {
        if !Collides(values) {
          EvenWithoutCollision(values, rows, cells, target);
        } else {
          EvenWithoutRepeat(values, rows, cells, target);
        }
      }
    } else {
      var rows, cells, target := CollisionLosesEvenness(values);
    }
  }

  /** If no stratum has a bar, or no model has one, the sample is even between crossings. */
  lemma BarFreeIsEven(values: seq<Candidate>)
    requires KeysDistinct(values, ArtifactOf)
    requires (forall c | c in values :: BarFree(c.stratum)) || (forall c | c in values :: BarFree(c.model))
    ensures AlwaysEven(values)
  {
    hide CellOf, CrossingOf, AlwaysEven;
    forall c, d | c in values && d in values ensures CellOf(c) == CellOf(d) <==> CrossingOf(c) == CrossingOf(d) {
      NamesTellApart(c, d);
    }
    EvennessExactly(values);
  }

  /** Stratum "x|y" with model "z", twice, and stratum "x" with model "y|z". */
  function Barred(): seq<Candidate> {
    [Candidate("a", "task", "z", "x|y", 0.5, 0.0, true),
     Candidate("b", "task", "z", "x|y", 0.5, 0.0, true),
     Candidate("c", "task", "y|z", "x", 0.5, 0.0, true)]
  }

  /** The two crossings share a name, and evenness between them is lost for some shuffle and target. */
  lemma BarsLoseEvenness()
    ensures KeysDistinct(Barred(), ArtifactOf)
    ensures CellOf(Barred()[0]) == CellOf(Barred()[2]) && CrossingOf(Barred()[0]) != CrossingOf(Barred()[2])
    ensures !AlwaysEven(Barred())
  {
    hide AlwaysEven;
    var values := Barred();
    assert values[0] in values && values[2] in values;
    assert "x|y" + "|" + "z" == "x" + "|" + "y|z";
    assert SameCrossing(values, 0, 1);
    EvennessExactly(values);
  }
}
