/**
 * The incomplete block design behind the candidate episodes, and why a balanced severity
 * assignment of it exists: round h covers scenes 8h to 8h+7, and for each vehicle the two blocks
 * of a round are complementary.
 */
module SeverityDesign {
  import opened Severity

  const FAMILIES := 8

  function First(start: int): set<int> {
    {start % 8, (start + 1) % 8, (start + 2) % 8, (start + 3) % 8}
  }

  function BlockStart(scene: nat): int {
    scene % 4 + 2 * (scene / 4 / 2)
  }

  predicate SecondHalf(scene: nat) {
    scene / 4 % 2 == 1
  }

  predicate InBlock(scene: nat, d: int) {
    d in First(BlockStart(scene)) <==> !SecondHalf(scene)
  }

  /** The families below n in a scene's block, in increasing order. */
  function BlockBelow(scene: nat, n: nat): (r: seq<int>)
    ensures Increasing(r)
    ensures forall d :: d in r <==> 0 <= d < n && InBlock(scene, d)
  {
    if n == 0 then []
    else
      var rest := BlockBelow(scene, n - 1);
      assert forall i | 0 <= i < |rest| :: rest[i] in rest;
      if InBlock(scene, n - 1) then rest + [n - 1] else rest
  }

  function DefectBlock(scene: nat): (r: seq<int>)
    ensures Increasing(r)
    ensures forall d :: d in r <==> 0 <= d < FAMILIES && InBlock(scene, d)
  {
    BlockBelow(scene, FAMILIES)
  }

  lemma Parts(round: nat, vehicle: nat)
    requires vehicle < 4
    ensures BlockStart(8 * round + vehicle) == BlockStart(8 * round + 4 + vehicle) == vehicle + 2 * round
    ensures !SecondHalf(8 * round + vehicle) && SecondHalf(8 * round + 4 + vehicle)
  {
    var a, b := 8 * round + vehicle, 8 * round + 4 + vehicle;
    assert a % 4 == vehicle && a / 4 == 2 * round;
    assert b % 4 == vehicle && b / 4 == 2 * round + 1;
  }

  /** The two blocks of a vehicle in a round are complementary. */
  lemma Complementary(round: nat, vehicle: nat, d: int)
    requires vehicle < 4 && 0 <= d < FAMILIES
    ensures d in DefectBlock(8 * round + vehicle) <==> d !in DefectBlock(8 * round + 4 + vehicle)
  {
    Parts(round, vehicle);
  }

  /** How many of a vehicle's blocks in the first rounds contain d. */
  function Appearances(rounds: nat, vehicle: nat, d: int): nat {
    if rounds == 0 then 0
    else
      var base := 8 * (rounds - 1);
      Appearances(rounds - 1, vehicle, d)
        + (if d in DefectBlock(base + vehicle) then 1 else 0)
        + (if d in DefectBlock(base + 4 + vehicle) then 1 else 0)
  }

  /** Every family occurs once per vehicle and round: three times per vehicle in 24 scenes. */
  lemma {:induction false} OncePerRound(rounds: nat, vehicle: nat, d: int)
    requires vehicle < 4 && 0 <= d < FAMILIES
    ensures Appearances(rounds, vehicle, d) == rounds
  {
    hide DefectBlock;
    if rounds > 0 {
      OncePerRound(rounds - 1, vehicle, d);
      Complementary(rounds - 1, vehicle, d);
    }
  }

  // ---------------------------------------------------------------- a balanced assignment

  /** The families of a block whose parity is the scene's. */
  function Alternate(scene: nat): Pair {
    var start := BlockStart(scene) + (if SecondHalf(scene) then 4 else 0);
    var x, y := start % 8, (start + 2) % 8;
    if x < y then (x, y) else (y, x)
  }

  /** Counting on from base around the eight families. */
  function Around(base: int, k: int): int {
    if base + k < 8 then base + k else base + k - 8
  }

  lemma Wrap(start: int, k: int)
    requires 0 <= k < 8
    ensures (start + k) % 8 == Around(start % 8, k)
  {
    assert start + k == 8 * (start / 8) + (start % 8 + k);
  }

  /** The eight cases of where a block starts. */
  lemma AroundCases(base: int, d: int)
    requires 0 <= base < 8 && 0 <= d < 8
    ensures d in {base, Around(base, 1), Around(base, 2), Around(base, 3)} && d % 2 == base % 2
      <==> d in {base, Around(base, 2)}
    ensures d !in {base, Around(base, 1), Around(base, 2), Around(base, 3)} && d % 2 == base % 2
      <==> d in {Around(base, 4), Around(base, 6)}
  {
  }

  lemma EvenShift(k: int, x: int)
    ensures (2 * k + x) % 2 == x % 2
  {
  }

  lemma ScenesParity(scene: nat)
    ensures BlockStart(scene) % 8 % 2 == scene % 2
  {
    var vehicle, replicate, start := scene % 4, scene / 4, BlockStart(scene);
    assert scene == 4 * replicate + vehicle;
    EvenShift(2 * replicate, vehicle);
    EvenShift(replicate / 2, vehicle);
    assert start == 8 * (start / 8) + start % 8;
    EvenShift(4 * (start / 8), start % 8);
  }

  lemma AlternateHas(scene: nat, d: int)
    requires 0 <= d < FAMILIES
    ensures FromBlock(DefectBlock(scene), Alternate(scene))
    ensures Has(Alternate(scene), d) <==> d in DefectBlock(scene) && d % 2 == scene % 2
  {
    hide DefectBlock, BlockStart;
    var start := BlockStart(scene);
    var base := start % 8;
    ScenesParity(scene);
    Wrap(start, 1);
    Wrap(start, 2);
    Wrap(start, 3);
    Wrap(start, 4);
    Wrap(start + 4, 2);
    Wrap(start, 6);
    assert First(start) == {base, Around(base, 1), Around(base, 2), Around(base, 3)};
    var pair := Alternate(scene);
    assert Has(pair, pair.0) && Has(pair, pair.1);
    forall x | 0 <= x < 8 ensures Has(pair, x) <==> InBlock(scene, x) && x % 2 == scene % 2 {
      AroundCases(base, x);
      assert Has(pair, x) <==>
        if SecondHalf(scene) then x in {Around(base, 4), Around(base, 6)} else x in {base, Around(base, 2)};
    }
    assert 0 <= pair.0 < pair.1 < 8;
    assert InBlock(scene, pair.0) && InBlock(scene, pair.1);
  }

  /** How many of the first n scenes have d severe. */
  function Tally(n: nat, d: int): nat {
    if n == 0 then 0 else Tally(n - 1, d) + (if Has(Alternate(n - 1), d) then 1 else 0)
  }

  /** A vehicle of d's parity has d severe in exactly one of its two scenes of a round, others in none. */
  lemma VehicleTally(round: nat, vehicle: nat, d: int)
    requires vehicle < 4 && 0 <= d < FAMILIES
    ensures var a, b := 8 * round + vehicle, 8 * round + 4 + vehicle;
      (if Has(Alternate(a), d) then 1 else 0) + (if Has(Alternate(b), d) then 1 else 0)
        == if d % 2 == vehicle % 2 then 1 else 0
  {
    hide DefectBlock, Alternate, Has;
    var a, b := 8 * round + vehicle, 8 * round + 4 + vehicle;
    AlternateHas(a, d);
    AlternateHas(b, d);
    Complementary(round, vehicle, d);
    EvenShift(4 * round, vehicle);
    EvenShift(4 * round + 2, vehicle);
  }

  lemma {:induction false} TwoPerRound(rounds: nat, d: int)
    requires 0 <= d < FAMILIES
    ensures Tally(8 * rounds, d) == 2 * rounds
  {
    hide Alternate;
    if rounds > 0 {
      var h := rounds - 1;
      var base := 8 * h;
      TwoPerRound(h, d);
      VehicleTally(h, 0, d);
      VehicleTally(h, 1, d);
      VehicleTally(h, 2, d);
      VehicleTally(h, 3, d);
      assert Tally(base + 4, d) == Tally(base, d) + (if Has(Alternate(base), d) then 1 else 0)
        + (if Has(Alternate(base + 1), d) then 1 else 0) + (if Has(Alternate(base + 2), d) then 1 else 0)
        + (if Has(Alternate(base + 3), d) then 1 else 0) by {
        TallyFour(base, d);
      }
      TallyFour(base + 4, d);
      assert base + 4 + 4 == 8 * rounds;
    }
  }

  lemma TallyFour(n: nat, d: int)
    ensures Tally(n + 4, d) == Tally(n, d) + (if Has(Alternate(n), d) then 1 else 0)
      + (if Has(Alternate(n + 1), d) then 1 else 0) + (if Has(Alternate(n + 2), d) then 1 else 0)
      + (if Has(Alternate(n + 3), d) then 1 else 0)
  {
    hide Alternate;
    assert Tally(n + 1, d) == Tally(n, d) + (if Has(Alternate(n), d) then 1 else 0);
    assert Tally(n + 2, d) == Tally(n + 1, d) + (if Has(Alternate(n + 1), d) then 1 else 0);
    assert Tally(n + 3, d) == Tally(n + 2, d) + (if Has(Alternate(n + 2), d) then 1 else 0);
  }

  function Alternates(n: nat): (r: seq<Pair>) {
    seq(n, scene requires 0 <= scene => Alternate(scene))
  }

  lemma {:induction false} ChosenSnoc(choice: seq<Pair>, p: Pair, d: int)
    ensures Chosen(choice + [p], d) == Chosen(choice, d) + (if Has(p, d) then 1 else 0)
  {
    if choice != [] {
      assert (choice + [p])[1..] == choice[1..] + [p];
      ChosenSnoc(choice[1..], p, d);
    }
  }

  lemma {:induction false} ChosenIsTally(n: nat, d: int)
    ensures Chosen(Alternates(n), d) == Tally(n, d)
  {
    hide Alternate;
    if n > 0 {
      ChosenIsTally(n - 1, d);
      assert Alternates(n) == Alternates(n - 1) + [Alternate(n - 1)];
      ChosenSnoc(Alternates(n - 1), Alternate(n - 1), d);
    }
  }

  function DefectBlocks(rounds: nat): (r: seq<seq<int>>) {
    seq(8 * rounds, scene requires 0 <= scene => DefectBlock(scene))
  }

  function Zeros(n: nat): seq<int> {
    seq(n, _ => 0)
  }

  /** For every number of rounds the design admits an assignment with quota two per round. */
  lemma DesignIsFeasible(rounds: nat)
    ensures Balanced(DefectBlocks(rounds), 2 * rounds, Zeros(FAMILIES), Alternates(8 * rounds))
  {
    hide DefectBlock, Alternate, Chosen;
    var choice := Alternates(8 * rounds);
    forall g | 0 <= g < 8 * rounds ensures FromBlock(DefectBlocks(rounds)[g], choice[g]) {
      AlternateHas(g, 0);
    }
    forall d | 0 <= d < FAMILIES ensures Chosen(choice, d) == 2 * rounds {
      ChosenIsTally(8 * rounds, d);
      TwoPerRound(rounds, d);
    }
  }

  const ROUNDS := 3

  /**
   * _severity_assignment: the search always succeeds on this design, and the result is the
   * lexicographically least assignment with two severe families per scene and an equal number of
   * severe scenes per family.
   */
  method SeverityAssignment(rounds: nat := ROUNDS) returns (severity: map<(nat, int), bool>, ghost choice: seq<Pair>)
    ensures Least(DefectBlocks(rounds), 2 * rounds, Zeros(FAMILIES), choice)
    ensures |choice| == 8 * rounds
    ensures forall g: nat, d: int :: (g, d) in severity <==> g < 8 * rounds && d in DefectBlock(g)
    ensures forall g: nat, d: int | (g, d) in severity :: severity[(g, d)] <==> Has(choice[g], d)
  {
    hide DefectBlock, Least, Alternate, Balanced, Infeasible;
    var blocks := DefectBlocks(rounds);
    var search := new Search(blocks, 2 * rounds, FAMILIES);
    var found := search.Visit(0);
    assert blocks[0..] == blocks;
    DesignIsFeasible(rounds);
    NotInfeasible(blocks, 2 * rounds, Zeros(FAMILIES), Alternates(8 * rounds));
    assert found;
    choice := search.From(0);
    LeastLength(blocks, 2 * rounds, Zeros(FAMILIES), choice);
    severity := Tabulate(blocks, search.selected, choice);
    forall g: nat | g < 8 * rounds ensures blocks[g] == DefectBlock(g) {}
  }

  lemma NotInfeasible(blocks: seq<seq<int>>, quota: int, counts: seq<int>, choice: seq<Pair>)
    requires Balanced(blocks, quota, counts, choice)
    ensures !Infeasible(blocks, quota, counts)
  {
  }

  /** The table of severities: a family of a scene's block is severe if it is in the scene's pair. */
  method Tabulate(blocks: seq<seq<int>>, selected: map<nat, Pair>, ghost choice: seq<Pair>)
    returns (severity: map<(nat, int), bool>)
    requires |choice| == |blocks| && forall g: nat | g < |blocks| :: g in selected && selected[g] == choice[g]
    ensures forall g: nat, d: int :: (g, d) in severity <==> g < |blocks| && d in blocks[g]
    ensures forall g: nat, d: int | (g, d) in severity :: severity[(g, d)] <==> Has(choice[g], d)
  {
    severity := map g: nat, d: int | 0 <= g < |blocks| && d in blocks[g] :: (g, d) := Has(selected[g], d);
  }

  lemma LeastLength(blocks: seq<seq<int>>, quota: int, counts: seq<int>, choice: seq<Pair>)
    requires Least(blocks, quota, counts, choice)
    ensures |choice| == |blocks|
  {
  }

  /** Which families a scene's block holds: four from its start on around the eight, or the other four. */
  lemma BlockMeans(scene: nat, d: int)
    requires 0 <= d < 8
    ensures var vehicle, replicate := scene % 4, scene / 4;
      var start := vehicle + 2 * (replicate / 2);
      var within := exists offset :: 0 <= offset < 4 && Counted(start, offset, d);
      d in DefectBlock(scene) <==> if replicate % 2 == 0 then within else !within
  {
    hide First, Counted, DefectBlock;
    FirstMeans(BlockStart(scene), d);
  }

  lemma FirstMeans(start: int, d: int)
    ensures d in First(start) <==> exists offset :: 0 <= offset < 4 && Counted(start, offset, d)
  {
    assert Counted(start, 0, d) || Counted(start, 1, d) || Counted(start, 2, d) || Counted(start, 3, d)
      <==> d in First(start);
  }

  predicate Counted(start: int, offset: int, d: int) {
    (start + offset) % 8 == d
  }
}
