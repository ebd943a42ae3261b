/**
 * The balanced severity assignment: one pair of families per group, every family chosen exactly
 * quota times, found by backtracking with pruning.
 */
module Severity {

  type Pair = (int, int)

  predicate Has(p: Pair, d: int) {
    p.0 == d || p.1 == d
  }

  /** How many of the pairs contain d. */
  function Chosen(choice: seq<Pair>, d: int): (n: nat)
    ensures n <= |choice|
  {
    if choice == [] then 0
    else (if Has(choice[0], d) then 1 else 0) + Chosen(choice[1..], d)
  }

  /** How many of the blocks contain d. */
  function Remaining(blocks: seq<seq<int>>, d: int): nat {
    if blocks == [] then 0
    else (if d in blocks[0] then 1 else 0) + Remaining(blocks[1..], d)
  }

  predicate FromBlock(block: seq<int>, p: Pair) {
    p.0 in block && p.1 in block && p.0 < p.1
  }

  ghost predicate Increasing(block: seq<int>) {
    forall i, j | 0 <= i < j < |block| :: block[i] < block[j]
  }

  /** One pair from every block, topping every family's count up to the quota. */
  ghost predicate Balanced(blocks: seq<seq<int>>, quota: int, counts: seq<int>, choice: seq<Pair>) {
    && |choice| == |blocks|
    && (forall g | 0 <= g < |blocks| :: FromBlock(blocks[g], choice[g]))
    && (forall d | 0 <= d < |counts| :: counts[d] + Chosen(choice, d) == quota)
  }

  function Add(counts: seq<int>, p: Pair): (r: seq<int>)
    ensures |r| == |counts|
  {
    seq(|counts|, d requires 0 <= d < |counts| => counts[d] + (if Has(p, d) then 1 else 0))
  }

  function Remove(counts: seq<int>, p: Pair): (r: seq<int>)
    ensures |r| == |counts|
  {
    seq(|counts|, d requires 0 <= d < |counts| => counts[d] - (if Has(p, d) then 1 else 0))
  }

  predicate PairLess(p: Pair, q: Pair) {
    p.0 < q.0 || (p.0 == q.0 && p.1 < q.1)
  }

  /** Lexicographic order on choices of equal length. */
  predicate LexLess(a: seq<Pair>, b: seq<Pair>)
    requires |a| == |b|
  {
    a != [] && (PairLess(a[0], b[0]) || (a[0] == b[0] && LexLess(a[1..], b[1..])))
  }

  /** A balanced choice before every other. */
  ghost predicate Least(blocks: seq<seq<int>>, quota: int, counts: seq<int>, choice: seq<Pair>) {
    && Balanced(blocks, quota, counts, choice)
    && forall other | Balanced(blocks, quota, counts, other) :: other == choice || LexLess(choice, other)
  }

  ghost predicate Infeasible(blocks: seq<seq<int>>, quota: int, counts: seq<int>) {
    forall choice :: !Balanced(blocks, quota, counts, choice)
  }

  // ---------------------------------------------------------------- one step of the search

  /** A balanced choice is a first pair and a balanced choice of the rest. */
  lemma BalancedCons(blocks: seq<seq<int>>, quota: int, counts: seq<int>, p: Pair, rest: seq<Pair>)
    requires blocks != []
    ensures Balanced(blocks, quota, counts, [p] + rest) <==>
      FromBlock(blocks[0], p) && Balanced(blocks[1..], quota, Add(counts, p), rest)
  {
    var choice := [p] + rest;
    assert choice[1..] == rest;
    if Balanced(blocks, quota, counts, choice) {
      forall g | 0 <= g < |blocks[1..]| ensures FromBlock(blocks[1..][g], rest[g]) {
        assert FromBlock(blocks[g + 1], choice[g + 1]);
      }
      forall d | 0 <= d < |counts| ensures Add(counts, p)[d] + Chosen(rest, d) == quota {
        assert counts[d] + Chosen(choice, d) == quota;
      }
    }
    if FromBlock(blocks[0], p) && Balanced(blocks[1..], quota, Add(counts, p), rest) {
      forall g | 0 <= g < |blocks| ensures FromBlock(blocks[g], choice[g]) {
        if g > 0 {
          assert FromBlock(blocks[1..][g - 1], rest[g - 1]);
        }
      }
      forall d | 0 <= d < |counts| ensures counts[d] + Chosen(choice, d) == quota {
        assert Add(counts, p)[d] + Chosen(rest, d) == quota;
      }
    }
  }

  /** No choice contains a family more often than the blocks do. */
  lemma {:induction false} ChosenBound(blocks: seq<seq<int>>, choice: seq<Pair>, d: int)
    requires |choice| == |blocks| && forall g | 0 <= g < |blocks| :: FromBlock(blocks[g], choice[g])
    ensures Chosen(choice, d) <= Remaining(blocks, d)
  {
    if blocks != [] {
      assert FromBlock(blocks[0], choice[0]);
      forall g | 0 <= g < |blocks[1..]| ensures FromBlock(blocks[1..][g], choice[1..][g]) {
        assert FromBlock(blocks[g + 1], choice[g + 1]);
      }
      ChosenBound(blocks[1..], choice[1..], d);
    }
  }

  /** What the search prunes: a family over quota, or one that can no longer reach it. */
  predicate Hopeless(blocks: seq<seq<int>>, quota: int, counts: seq<int>) {
    exists d | 0 <= d < |counts| :: counts[d] > quota || counts[d] + Remaining(blocks, d) < quota
  }

  lemma HopelessIsInfeasible(blocks: seq<seq<int>>, quota: int, counts: seq<int>)
    requires Hopeless(blocks, quota, counts)
    ensures Infeasible(blocks, quota, counts)
  {
    forall choice ensures !Balanced(blocks, quota, counts, choice) {
      if Balanced(blocks, quota, counts, choice) {
        var d :| 0 <= d < |counts| && (counts[d] > quota || counts[d] + Remaining(blocks, d) < quota);
        ChosenBound(blocks, choice, d);
        assert false;
      }
    }
  }

  /** Choosing a family that has its quota leaves nothing to find. */
  lemma FullPair(blocks: seq<seq<int>>, quota: int, counts: seq<int>, p: Pair, d: int)
    requires 0 <= d < |counts| && counts[d] == quota && Has(p, d)
    ensures Infeasible(blocks, quota, Add(counts, p))
  {
    forall choice ensures !Balanced(blocks, quota, Add(counts, p), choice) {
      assert Add(counts, p)[d] > quota;
    }
  }

  ghost predicate Excluded(blocks: seq<seq<int>>, quota: int, counts: seq<int>, i: int, j: int)
    requires blocks != []
  {
    forall a, b | 0 <= a < b < |blocks[0]| && (a < i || (a == i && b < j)) ::
      Infeasible(blocks[1..], quota, Add(counts, (blocks[0][a], blocks[0][b])))
  }

  /** Every pair excluded: nothing to find. */
  lemma AllExcluded(blocks: seq<seq<int>>, quota: int, counts: seq<int>)
    requires blocks != [] && Increasing(blocks[0]) && Excluded(blocks, quota, counts, |blocks[0]|, 0)
    ensures Infeasible(blocks, quota, counts)
  {
    forall choice ensures !Balanced(blocks, quota, counts, choice) {
      if Balanced(blocks, quota, counts, choice) {
        BalancedStart(blocks, quota, counts, choice);
      }
    }
  }

  lemma BalancedStart(blocks: seq<seq<int>>, quota: int, counts: seq<int>, choice: seq<Pair>)
    requires blocks != [] && Increasing(blocks[0]) && Balanced(blocks, quota, counts, choice)
    ensures exists a, b ::
      0 <= a < b < |blocks[0]| && !Infeasible(blocks[1..], quota, Add(counts, (blocks[0][a], blocks[0][b])))
  {
    assert choice == [choice[0]] + choice[1..];
    BalancedCons(blocks, quota, counts, choice[0], choice[1..]);
    var a, b := PairAt(blocks[0], choice[0]);
    assert Balanced(blocks[1..], quota, Add(counts, (blocks[0][a], blocks[0][b])), choice[1..]);
  }

  lemma PairAt(block: seq<int>, p: Pair) returns (a: int, b: int)
    requires Increasing(block) && FromBlock(block, p)
    ensures 0 <= a < b < |block| && p == (block[a], block[b])
  {
    a :| 0 <= a < |block| && block[a] == p.0;
    b :| 0 <= b < |block| && block[b] == p.1;
    assert !(b < a);
  }

  /** All earlier pairs excluded and this one solved: the least solution. */
  lemma FirstIsLeast(blocks: seq<seq<int>>, quota: int, counts: seq<int>, i: int, j: int, rest: seq<Pair>)
    requires blocks != [] && Increasing(blocks[0]) && 0 <= i < j < |blocks[0]|
    requires Excluded(blocks, quota, counts, i, j)
    requires Least(blocks[1..], quota, Add(counts, (blocks[0][i], blocks[0][j])), rest)
    ensures Least(blocks, quota, counts, [(blocks[0][i], blocks[0][j])] + rest)
  {
    var block := blocks[0];
    var p := (block[i], block[j]);
    var choice := [p] + rest;
    BalancedCons(blocks, quota, counts, p, rest);
    forall other | Balanced(blocks, quota, counts, other) ensures other == choice || LexLess(choice, other) {
      assert other == [other[0]] + other[1..];
      BalancedCons(blocks, quota, counts, other[0], other[1..]);
      var a, b := PairAt(block, other[0]);
      assert !(a < i || (a == i && b < j));
      assert a == i && b == j ==> other[0] == p;
      assert choice[1..] == rest;
    }
  }

  // ---------------------------------------------------------------- the search

  class Search {
    const blocks: seq<seq<int>>
    const quota: int
    var counts: seq<int>
    var selected: map<nat, Pair>

    ghost predicate Valid()
      reads this
    {
      forall g | 0 <= g < |blocks| :: Increasing(blocks[g])
    }

    constructor (blocks: seq<seq<int>>, quota: int, families: nat)
      requires forall g | 0 <= g < |blocks| :: Increasing(blocks[g])
      ensures Valid() && this.blocks == blocks && this.quota == quota
      ensures counts == seq(families, _ => 0)
    {
      this.blocks := blocks;
      this.quota := quota;
      counts := seq(families, _ => 0);
      selected := map[];
    }

    /** The pairs selected for the groups from g on. */
    ghost function From(g: nat): seq<Pair>
      reads this
      requires g <= |blocks| && forall k | g <= k < |blocks| :: k in selected
    {
      var chosen := selected;
      seq(|blocks| - g, k requires 0 <= k < |blocks| - g && g + k in chosen => chosen[g + k])
    }

    ghost predicate Decided(g: nat, before: seq<int>)
      reads this
      requires g <= |blocks|
    {
      && (forall k | g <= k < |blocks| :: k in selected)
      && Least(blocks[g..], quota, before, From(g))
    }

    /** The selections of earlier groups are left alone. */
    twostate predicate EarlierKept(g: nat)
      reads this
    {
      forall k | k < g :: (k in selected <==> k in old(selected)) && (k in selected ==> selected[k] == old(selected)[k])
    }

    /**
     * Success leaves the lexicographically least balanced choice; failure means there is none, and
     * the counts are as before.
     */
    method Visit(group: nat) returns (found: bool)
      requires Valid() && group <= |blocks|
      modifies this
      ensures Valid() && EarlierKept(group)
      ensures found ==> Decided(group, old(counts))
      ensures !found ==> Infeasible(blocks[group..], quota, old(counts)) && counts == old(counts)
      decreases |blocks| - group, 1
    {
      if group == |blocks| {
        found := forall d | 0 <= d < |counts| :: counts[d] == quota;
        AtLeaf(blocks[group..], quota, counts);
        assert From(group) == [];
        return;
      }
      ghost var rest := blocks[group..];
      if Hopeless(blocks[group..], quota, counts) {
        HopelessIsInfeasible(rest, quota, counts);
        return false;
      }
      var block := blocks[group];
      for i := 0 to |block|
        invariant counts == old(counts) && EarlierKept(group)
        invariant Excluded(rest, quota, counts, i, 0)
      {
        for j := i + 1 to |block|
          invariant counts == old(counts) && EarlierKept(group)
          invariant Excluded(rest, quota, counts, i, j)
        {
          found := TryPair(group, i, j);
          if found {
            return;
          }
        }
      }
      AllExcluded(rest, quota, counts);
      found := false;
    }

    /** One iteration of the loop over pairs: choose, recurse, and undo on failure. */
    method TryPair(group: nat, i: nat, j: nat) returns (found: bool)
      requires Valid() && group < |blocks| && i < j < |blocks[group]|
      requires Excluded(blocks[group..], quota, counts, i, j)
      modifies this
      ensures Valid() && EarlierKept(group)
      ensures found ==> Decided(group, old(counts))
      ensures !found ==> counts == old(counts) && Excluded(blocks[group..], quota, counts, i, j + 1)
      decreases |blocks| - group, 0
    {
      var block := blocks[group];
      var pair := (block[i], block[j]);
      ghost var rest := blocks[group..];
      ghost var before := counts;
      assert rest[0] == block && rest[1..] == blocks[group + 1..];
      if exists d | 0 <= d < |counts| :: Has(pair, d) && counts[d] == quota {
        ghost var d :| 0 <= d < |counts| && Has(pair, d) && counts[d] == quota;
        FullPair(rest[1..], quota, counts, pair, d);
        return false;
      }
      counts := Add(counts, pair);
      selected := selected[group := pair];
      found := Visit(group + 1);
      if found {
        FirstIsLeast(rest, quota, before, i, j, From(group + 1));
        assert From(group) == [pair] + From(group + 1);
      } else {
        counts := Remove(counts, pair);
        assert counts == before;
      }
    }
  }

  lemma AtLeaf(blocks: seq<seq<int>>, quota: int, counts: seq<int>)
    requires blocks == []
    ensures if forall d | 0 <= d < |counts| :: counts[d] == quota then Least(blocks, quota, counts, [])
      else Infeasible(blocks, quota, counts)
  {
  }
}
