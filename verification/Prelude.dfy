/** Small shared vocabulary: options, results, and sums and counts over sequences. */
module Prelude {

  datatype Option<+T> = None | Some(value: T)

  datatype Result<+T, +E> = Ok(value: T) | Err(error: E)

  function MaxReal(a: real, b: real): real {
    if a >= b then a else b
  }

  function AbsReal(a: real): real {
    if a >= 0.0 then a else -a
  }

  /** No element occurs twice. */
  ghost predicate Distinct<T>(s: seq<T>) {
    forall i, j | 0 <= i < j < |s| :: s[i] != s[j]
  }

  function AsSet<T>(s: seq<T>): set<T> {
    set x | x in s
  }

  /** The sequence enumerates the set, each member once. */
  ghost predicate Lists<T(!new)>(s: seq<T>, members: set<T>) {
    Distinct(s) && forall x :: x in s <==> x in members
  }

  function Sum(s: seq<real>): real {
    if s == [] then 0.0 else Sum(s[..|s| - 1]) + s[|s| - 1]
  }

  /** Number of true entries. */
  function Count(s: seq<bool>): nat {
    if s == [] then 0 else Count(s[..|s| - 1]) + (if s[|s| - 1] then 1 else 0)
  }

  lemma SumSnoc(s: seq<real>, x: real)
    ensures Sum(s + [x]) == Sum(s) + x
  {
    assert (s + [x])[..|s|] == s;
  }

  lemma SumOne(x: real)
    ensures Sum([x]) == x
  {
    SumSnoc([], x);
    assert [] + [x] == [x];
  }

  /** Changing one term of a sum changes the sum by the difference of that term. */
  lemma {:induction false} SumUpdate(s: seq<real>, c: nat, x: real)
    requires c < |s|
    ensures Sum(s[c := x]) == Sum(s) - s[c] + x
  {
    var n := |s| - 1;
    if c == n {
      assert s[c := x][..n] == s[..n];
    } else {
      assert s[c := x][..n] == s[..n][c := x];
      SumUpdate(s[..n], c, x);
    }
  }

  lemma {:induction false} CountUpdate(s: seq<bool>, c: nat, x: bool)
    requires c < |s|
    ensures Count(s[c := x]) == Count(s) - (if s[c] then 1 else 0) + (if x then 1 else 0)
  {
    var n := |s| - 1;
    if c == n {
      assert s[c := x][..n] == s[..n];
    } else {
      assert s[c := x][..n] == s[..n][c := x];
      CountUpdate(s[..n], c, x);
    }
  }

  lemma {:induction false} CountIsSize(flags: seq<bool>)
    ensures Count(flags) == |set i | 0 <= i < |flags| && flags[i]|
  {
    var s := set i | 0 <= i < |flags| && flags[i];
    if flags == [] {
      assert s == {};
    } else {
      var n := |flags| - 1;
      CountIsSize(flags[..n]);
      var before := set i | 0 <= i < |flags[..n]| && flags[..n][i];
      assert s == if flags[n] then before + {n} else before;
    }
  }

  lemma SameSize(flags: seq<bool>, leased: set<nat>)
    requires forall c: nat :: c in leased <==> c < |flags| && flags[c]
    ensures |set i | 0 <= i < |flags| && flags[i]| == |leased|
  {
    var ints := set i | 0 <= i < |flags| && flags[i];
    BoundedSame(flags, |flags|, ints, leased);
  }

  lemma {:induction false} BoundedSame(flags: seq<bool>, n: nat, ints: set<int>, nats: set<nat>)
    requires n <= |flags|
    requires forall i :: i in ints <==> 0 <= i < n && flags[i]
    requires forall c: nat :: c in nats <==> c < n && flags[c]
    ensures |ints| == |nats|
  {
    if n == 0 {
      assert forall i :: i !in ints;
      assert forall c: nat :: c !in nats;
    } else {
      BoundedSame(flags, n - 1, ints - {n - 1}, nats - {n - 1});
    }
  }

  lemma {:induction false} SumMonotone(s: seq<real>, t: seq<real>)
    requires |s| == |t|
    requires forall i | 0 <= i < |s| :: s[i] <= t[i]
    ensures Sum(s) <= Sum(t)
  {
    if s != [] {
      SumMonotone(s[..|s| - 1], t[..|t| - 1]);
    }
  }

  lemma {:induction false} SumAdd(s: seq<real>, t: seq<real>, u: seq<real>)
    requires |s| == |t| == |u|
    requires forall i | 0 <= i < |s| :: u[i] == s[i] + t[i]
    ensures Sum(u) == Sum(s) + Sum(t)
  {
    if s != [] {
      SumAdd(s[..|s| - 1], t[..|t| - 1], u[..|u| - 1]);
    }
  }

  /** A successful list with a front part. */
  function Prepend<T, E>(first: seq<T>, rest: Result<seq<T>, E>): Result<seq<T>, E> {
    match rest
    case Err(e) => Err(e)
    case Ok(more) => Ok(first + more)
  }

  lemma PrependNothing<T, E>(rest: Result<seq<T>, E>)
    ensures Prepend([], rest) == rest
  {
    if rest.Ok? {
      assert [] + rest.value == rest.value;
    }
  }

  lemma PrependSnoc<T, E>(first: seq<T>, x: T, rest: Result<seq<T>, E>)
    ensures Prepend(first + [x], rest) == Prepend(first, Prepend([x], rest))
  {
    if rest.Ok? {
      assert first + [x] + rest.value == first + ([x] + rest.value);
    }
  }
}
