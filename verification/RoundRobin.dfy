/** Taking one item at a time from several lists in turn: which items, in which order. */
module RoundRobin {
  import opened Prelude

  /** The item at a position of one of the lists. */
  datatype Slot = Slot(list: nat, position: nat)

  /** The slots of one round, from the first j lists. */
  function Turn(lens: seq<nat>, round: nat, j: nat): seq<Slot>
    requires j <= |lens|
  {
    if j == 0 then []
    else Turn(lens, round, j - 1) + (if round < lens[j - 1] then [Slot(j - 1, round)] else [])
  }

  /** The slots of the first rounds. */
  function Rounds(lens: seq<nat>, rounds: nat): seq<Slot> {
    if rounds == 0 then [] else Rounds(lens, rounds - 1) + Turn(lens, rounds - 1, |lens|)
  }

  function Upto(lens: seq<nat>, round: nat, j: nat): seq<Slot>
    requires j <= |lens|
  {
    Rounds(lens, round) + Turn(lens, round, j)
  }

  function Longest(lens: seq<nat>): nat {
    if lens == [] then 0
    else
      var rest := Longest(lens[..|lens| - 1]);
      if lens[|lens| - 1] > rest then lens[|lens| - 1] else rest
  }

  function Total(lens: seq<nat>): nat {
    if lens == [] then 0 else Total(lens[..|lens| - 1]) + lens[|lens| - 1]
  }

  /** All slots, in the order in which they are taken. */
  function All(lens: seq<nat>): seq<Slot> {
    Rounds(lens, Longest(lens))
  }

  /** How many slots belong to a list. */
  function Taken(slots: seq<Slot>, i: nat): nat {
    if slots == [] then 0
    else Taken(slots[..|slots| - 1], i) + (if slots[|slots| - 1].list == i then 1 else 0)
  }

  predicate Exists(lens: seq<nat>, s: Slot) {
    s.list < |lens| && s.position < lens[s.list]
  }

  lemma {:induction false} TurnIs(lens: seq<nat>, round: nat, j: nat)
    requires j <= |lens|
    ensures forall s :: s in Turn(lens, round, j) <==> Exists(lens, s) && s.position == round && s.list < j
    ensures Distinct(Turn(lens, round, j))
  {
    if j > 0 {
      TurnIs(lens, round, j - 1);
      var before := Turn(lens, round, j - 1);
      assert forall i | 0 <= i < |before| :: before[i] in before;
    }
  }

  lemma {:induction false} RoundsAre(lens: seq<nat>, rounds: nat)
    ensures forall s :: s in Rounds(lens, rounds) <==> Exists(lens, s) && s.position < rounds
    ensures Distinct(Rounds(lens, rounds))
  {
    if rounds > 0 {
      RoundsAre(lens, rounds - 1);
      TurnIs(lens, rounds - 1, |lens|);
      DistinctConcat(Rounds(lens, rounds - 1), Turn(lens, rounds - 1, |lens|));
    }
  }

  lemma DistinctConcat<T>(s: seq<T>, t: seq<T>)
    requires Distinct(s) && Distinct(t) && forall x :: !(x in s && x in t)
    ensures Distinct(s + t)
  {
    forall i, j | 0 <= i < j < |s + t| ensures (s + t)[i] != (s + t)[j] {
      if i < |s| && j >= |s| {
        assert s[i] in s && t[j - |s|] in t;
      }
    }
  }

  lemma {:induction false} TakenConcat(s: seq<Slot>, t: seq<Slot>, i: nat)
    ensures Taken(s + t, i) == Taken(s, i) + Taken(t, i)
  {
    if t == [] {
      assert s + t == s;
    } else {
      TakenConcat(s, t[..|t| - 1], i);
      assert (s + t)[..|s + t| - 1] == s + t[..|t| - 1];
    }
  }

  lemma {:induction false} TakenInTurn(lens: seq<nat>, round: nat, j: nat, i: nat)
    requires j <= |lens| && i < |lens|
    ensures Taken(Turn(lens, round, j), i) == if i < j && round < lens[i] then 1 else 0
  {
    if j > 0 {
      TakenInTurn(lens, round, j - 1, i);
      TakenConcat(Turn(lens, round, j - 1), if round < lens[j - 1] then [Slot(j - 1, round)] else [], i);
      assert Taken([Slot(j - 1, round)], i) == if i == j - 1 then 1 else 0 by {
        assert [Slot(j - 1, round)][..0] == [];
      }
    }
  }

  function Min(a: nat, b: nat): nat {
    if a <= b then a else b
  }

  lemma TakenNone(i: nat)
    ensures Taken([], i) == 0
  {
  }

  lemma {:induction false} TakenInRounds(lens: seq<nat>, rounds: nat, i: nat)
    requires i < |lens|
    ensures Taken(Rounds(lens, rounds), i) == Min(lens[i], rounds)
  {
    hide Taken, Turn;
    TakenNone(i);
    if rounds > 0 {
      TakenInRounds(lens, rounds - 1, i);
      TakenInTurn(lens, rounds - 1, |lens|, i);
      TakenConcat(Rounds(lens, rounds - 1), Turn(lens, rounds - 1, |lens|), i);
    }
  }

  lemma TakenUpto(lens: seq<nat>, round: nat, j: nat, i: nat)
    requires j <= |lens| && i < |lens|
    ensures Taken(Upto(lens, round, j), i) == Min(lens[i], round + (if i < j then 1 else 0))
  {
    TakenInRounds(lens, round, i);
    TakenInTurn(lens, round, j, i);
    TakenConcat(Rounds(lens, round), Turn(lens, round, j), i);
  }

  /** Every prefix of the rounds ends at some turn of some round. */
  lemma {:induction false} PrefixIsUpto(lens: seq<nat>, rounds: nat, k: nat) returns (round: nat, j: nat)
    requires k <= |Rounds(lens, rounds)|
    ensures j <= |lens| && Rounds(lens, rounds)[..k] == Upto(lens, round, j)
  {
    if rounds == 0 {
      round, j := 0, 0;
    } else if k <= |Rounds(lens, rounds - 1)| {
      round, j := PrefixIsUpto(lens, rounds - 1, k);
      assert Rounds(lens, rounds)[..k] == Rounds(lens, rounds - 1)[..k];
    } else {
      round := rounds - 1;
      var base := |Rounds(lens, round)|;
      j := PrefixIsTurn(lens, round, |lens|, k - base);
      assert Rounds(lens, rounds)[..k] == Rounds(lens, round) + Turn(lens, round, |lens|)[..k - base];
    }
  }

  lemma {:induction false} PrefixIsTurn(lens: seq<nat>, round: nat, n: nat, k: nat) returns (j: nat)
    requires n <= |lens| && k <= |Turn(lens, round, n)|
    ensures j <= n && Turn(lens, round, n)[..k] == Turn(lens, round, j)
  {
    if k == |Turn(lens, round, n)| {
      j := n;
      assert Turn(lens, round, n)[..k] == Turn(lens, round, n);
    } else {
      j := PrefixIsTurn(lens, round, n - 1, k);
      assert Turn(lens, round, n)[..k] == Turn(lens, round, n - 1)[..k];
    }
  }

  /** However many slots are taken, a list not yet exhausted is at most one behind any other. */
  lemma RoundRobinIsFair(lens: seq<nat>, k: nat, i: nat, i': nat)
    requires k <= |All(lens)| && i < |lens| && i' < |lens|
    requires Taken(All(lens)[..k], i) < lens[i]
    ensures Taken(All(lens)[..k], i') <= Taken(All(lens)[..k], i) + 1
  {
    var round, j := PrefixIsUpto(lens, Longest(lens), k);
    TakenUpto(lens, round, j, i);
    TakenUpto(lens, round, j, i');
  }

  lemma {:induction false} LongestBounds(lens: seq<nat>, i: nat)
    requires i < |lens|
    ensures lens[i] <= Longest(lens)
  {
    if i < |lens| - 1 {
      LongestBounds(lens[..|lens| - 1], i);
    }
  }

  /** All lists every slot exactly once. */
  lemma AllIs(lens: seq<nat>)
    ensures forall s :: s in All(lens) <==> Exists(lens, s)
    ensures Distinct(All(lens))
  {
    RoundsAre(lens, Longest(lens));
    forall s | Exists(lens, s) ensures s.position < Longest(lens) {
      LongestBounds(lens, s.list);
    }
  }

  // ---------------------------------------------------------------- lengths

  function Takens(slots: seq<Slot>, n: nat): seq<nat> {
    seq(n, i requires 0 <= i => Taken(slots, i))
  }

  lemma {:induction false} TotalTaken(slots: seq<Slot>, n: nat)
    requires forall k | 0 <= k < |slots| :: slots[k].list < n
    ensures Total(Takens(slots, n)) == |slots|
  {
    if slots == [] {
      TotalZero(Takens(slots, n));
    } else {
      var m := |slots| - 1;
      TotalTaken(slots[..m], n);
      var i := slots[m].list;
      assert Takens(slots, n) == Takens(slots[..m], n)[i := Taken(slots[..m], i) + 1];
      TotalUpdate(Takens(slots[..m], n), i, Taken(slots[..m], i) + 1);
    }
  }

  lemma {:induction false} TotalZero(s: seq<nat>)
    requires forall i | 0 <= i < |s| :: s[i] == 0
    ensures Total(s) == 0
  {
    if s != [] {
      TotalZero(s[..|s| - 1]);
    }
  }

  lemma {:induction false} TotalUpdate(s: seq<nat>, i: nat, x: nat)
    requires i < |s|
    ensures Total(s[i := x]) == Total(s) - s[i] + x
  {
    var n := |s| - 1;
    if i == n {
      assert s[i := x][..n] == s[..n];
    } else {
      assert s[i := x][..n] == s[..n][i := x];
      TotalUpdate(s[..n], i, x);
    }
  }

  lemma AllLength(lens: seq<nat>)
    ensures |All(lens)| == Total(lens)
  {
    AllIs(lens);
    forall k | 0 <= k < |All(lens)| ensures All(lens)[k].list < |lens| {
      assert All(lens)[k] in All(lens);
    }
    TotalTaken(All(lens), |lens|);
    forall i | 0 <= i < |lens| ensures Takens(All(lens), |lens|)[i] == lens[i] {
      TakenInRounds(lens, Longest(lens), i);
      LongestBounds(lens, i);
    }
    assert Takens(All(lens), |lens|) == lens;
  }

  /** Before everything is taken, another round takes at least one slot. */
  lemma RoundProgresses(lens: seq<nat>, round: nat)
    requires |Rounds(lens, round)| < Total(lens)
    ensures Turn(lens, round, |lens|) != [] && |Rounds(lens, round + 1)| > |Rounds(lens, round)|
    ensures round < Longest(lens)
  {
    if round >= Longest(lens) {
      RoundsSaturate(lens, round);
      AllLength(lens);
    } else {
      LongestAttained(lens);
      var i :| 0 <= i < |lens| && lens[i] == Longest(lens);
      TurnIs(lens, round, |lens|);
      assert Slot(i, round) in Turn(lens, round, |lens|);
    }
  }

  lemma {:induction false} LongestAttained(lens: seq<nat>)
    requires Longest(lens) > 0
    ensures exists i :: 0 <= i < |lens| && lens[i] == Longest(lens)
  {
    var n := |lens| - 1;
    if lens[n] <= Longest(lens[..n]) {
      LongestAttained(lens[..n]);
      var i :| 0 <= i < n && lens[..n][i] == Longest(lens[..n]);
      assert lens[i] == Longest(lens);
    }
  }

  lemma {:induction false} RoundsSaturate(lens: seq<nat>, rounds: nat)
    requires rounds >= Longest(lens)
    ensures Rounds(lens, rounds) == All(lens)
  {
    if rounds > Longest(lens) {
      RoundsSaturate(lens, rounds - 1);
      TurnIs(lens, rounds - 1, |lens|);
      var turn := Turn(lens, rounds - 1, |lens|);
      assert turn == [] by {
        if turn != [] {
          assert turn[0] in turn;
          LongestBounds(lens, turn[0].list);
          assert false;
        }
      }
    }
  }

  lemma {:induction false} RoundsPrefix(lens: seq<nat>, first: nat, second: nat)
    requires first <= second
    ensures Rounds(lens, first) <= Rounds(lens, second)
  {
    if first < second {
      RoundsPrefix(lens, first, second - 1);
    }
  }

  lemma {:induction false} TurnPrefix(lens: seq<nat>, round: nat, j: nat, n: nat)
    requires j <= n <= |lens|
    ensures Turn(lens, round, j) <= Turn(lens, round, n)
  {
    if j < n {
      TurnPrefix(lens, round, j, n - 1);
    }
  }

  /** What the loop has taken at any point is a prefix of All. */
  lemma UptoPrefix(lens: seq<nat>, round: nat, j: nat)
    requires round < Longest(lens) && j <= |lens|
    ensures Upto(lens, round, j) <= All(lens)
  {
    hide Turn, Longest;
    TurnPrefix(lens, round, j, |lens|);
    RoundsPrefix(lens, round + 1, Longest(lens));
    PrefixTrans(Upto(lens, round, j), Rounds(lens, round + 1), All(lens));
  }

  lemma PrefixTrans<T>(a: seq<T>, b: seq<T>, c: seq<T>)
    requires a <= b && b <= c
    ensures a <= c
  {
  }

  /** The loop's counters: a turn adds a slot if the list reaches this round, and turns make rounds. */
  lemma UptoNext(lens: seq<nat>, round: nat, j: nat)
    requires j <= |lens|
    ensures Upto(lens, round, 0) == Rounds(lens, round)
    ensures j == |lens| ==> Upto(lens, round, j) == Rounds(lens, round + 1)
    ensures j < |lens| ==>
      |Upto(lens, round, j + 1)| == |Upto(lens, round, j)| + (if round < lens[j] then 1 else 0)
  {
  }

  predicate Earlier(s: Slot, t: Slot) {
    s.position < t.position || (s.position == t.position && s.list < t.list)
  }

  ghost predicate Ordered(slots: seq<Slot>) {
    forall i, j | 0 <= i < j < |slots| :: Earlier(slots[i], slots[j])
  }

  lemma {:induction false} TurnOrdered(lens: seq<nat>, round: nat, j: nat)
    requires j <= |lens|
    ensures Ordered(Turn(lens, round, j))
  {
    if j > 0 {
      TurnOrdered(lens, round, j - 1);
      TurnIs(lens, round, j - 1);
      var before := Turn(lens, round, j - 1);
      assert forall i | 0 <= i < |before| :: before[i] in before;
    }
  }

  lemma {:induction false} RoundsOrdered(lens: seq<nat>, rounds: nat)
    ensures Ordered(Rounds(lens, rounds))
  {
    hide Turn;
    if rounds > 0 {
      RoundsOrdered(lens, rounds - 1);
      RoundsAre(lens, rounds - 1);
      TurnOrdered(lens, rounds - 1, |lens|);
      TurnIs(lens, rounds - 1, |lens|);
      var before, turn := Rounds(lens, rounds - 1), Turn(lens, rounds - 1, |lens|);
      var all := before + turn;
      forall i, j | 0 <= i < j < |all| ensures Earlier(all[i], all[j]) {
        if i < |before| && j >= |before| {
          assert before[i] in before && turn[j - |before|] in turn;
        }
      }
    }
  }

  /** The slots are all those there are, each once, by position and then by list. */
  lemma AllMeans(lens: seq<nat>)
    ensures forall s :: s in All(lens) <==> s.list < |lens| && s.position < lens[s.list]
    ensures forall i, j | 0 <= i < j < |All(lens)| ::
      var s, t := All(lens)[i], All(lens)[j];
      s.position < t.position || (s.position == t.position && s.list < t.list)
  {
    AllIs(lens);
    RoundsOrdered(lens, Longest(lens));
    hide All;
    forall i, j | 0 <= i < j < |All(lens)| ensures Earlier(All(lens)[i], All(lens)[j]) {
      AllIsRounds(lens);
    }
  }

  lemma AllIsRounds(lens: seq<nat>)
    ensures All(lens) == Rounds(lens, Longest(lens))
  {
  }
}
