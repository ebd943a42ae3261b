/** The probability that a majority of independent votes prefers the better of two artifacts. */
module Majority {
  import opened Prelude

  // ---------------------------------------------------------------- binomial coefficients

  function Comb(n: nat, k: nat): nat {
    if k == 0 then 1 else if n == 0 then 0 else Comb(n - 1, k - 1) + Comb(n - 1, k)
  }

  function Factorial(n: nat): nat {
    if n == 0 then 1 else n * Factorial(n - 1)
  }

  lemma {:induction false} CombAbove(n: nat, k: nat)
    requires k > n
    ensures Comb(n, k) == 0
  {
    if n > 0 {
      CombAbove(n - 1, k - 1);
      CombAbove(n - 1, k);
    }
  }

  lemma {:induction false} CombAll(n: nat)
    ensures Comb(n, n) == 1
  {
    if n > 0 {
      CombAll(n - 1);
      CombAbove(n - 1, n);
    }
  }

  lemma {:induction false} CombSymmetric(n: nat, k: nat)
    requires k <= n
    ensures Comb(n, k) == Comb(n, n - k)
  {
    if k == 0 || k == n {
      CombAll(n);
    } else {
      CombSymmetric(n - 1, k - 1);
      CombSymmetric(n - 1, k);
    }
  }

  /** Comb is the binomial coefficient. */
  lemma {:induction false} CombFactorial(n: nat, k: nat)
    requires k <= n
    ensures Comb(n, k) * (Factorial(k) * Factorial(n - k)) == Factorial(n)
  {
    if k == 0 {
    } else if k == n {
      CombAll(n);
    } else {
      CombFactorial(n - 1, k - 1);
      CombFactorial(n - 1, k);
      var a, b := Comb(n - 1, k - 1), Comb(n - 1, k);
      var f, g := Factorial(k - 1), Factorial(n - k - 1);
      assert a * (f * ((n - k) * g)) == Factorial(n - 1);
      assert b * ((k * f) * g) == Factorial(n - 1);
      Pascal(a, b, f, g, k, n - k);
    }
  }

  lemma Pascal(a: int, b: int, f: int, g: int, k: int, l: int)
    requires a * (f * (l * g)) == b * ((k * f) * g)
    ensures (a + b) * ((k * f) * (l * g)) == (k + l) * (a * (f * (l * g)))
  {
    var x := a * (f * (l * g));
    assert a * ((k * f) * (l * g)) == k * x;
    assert b * ((k * f) * (l * g)) == l * (b * ((k * f) * g));
  }

  // ---------------------------------------------------------------- powers and terms

  function Pow(x: real, n: nat): real {
    if n == 0 then 1.0 else Times(x, Pow(x, n - 1))
  }

  function Product(c: real, x: real, y: real): real {
    c * x * y
  }

  function Times(x: real, y: real): real {
    x * y
  }

  /** The probability of exactly j successes in n votes. */
  function Term(n: nat, j: nat, p: real): real {
    if j > n then 0.0 else Product(Comb(n, j) as real, Pow(p, j), Pow(1.0 - p, n - j))
  }

  /** The probability of at least k successes. */
  function Tail(n: nat, k: nat, p: real): real
    decreases n + 1 - k
  {
    if k > n then 0.0 else Term(n, k, p) + Tail(n, k + 1, p)
  }

  /** A majority wins; a tie is decided by a fair coin. */
  function Win(votes: nat, p: real): real {
    Tail(votes, votes / 2 + 1, p) + (if votes % 2 == 0 then 0.5 * Term(votes, votes / 2, p) else 0.0)
  }

  /** One more vote: it is a success or it is not. */
  lemma TermStep(n: nat, j: nat, p: real)
    ensures Term(n + 1, j, p) == (if j > 0 then Times(p, Term(n, j - 1, p)) else 0.0) + Times(1.0 - p, Term(n, j, p))
  {
    hide Product, Times;
    var q := 1.0 - p;
    var zero := TimesZero(p, q);
    if j == 0 {
      ScaleLast(1.0, 1.0, Pow(q, n), q);
    } else if j <= n {
      Distribute(Comb(n, j - 1) as real, Comb(n, j) as real, Pow(p, j - 1), Pow(q, n - j), p, q);
    } else if j == n + 1 {
      CombAll(n);
      CombAll(n + 1);
      ScaleMiddle(1.0, Pow(p, n), 1.0, p);
    }
  }

  lemma TimesZero(p: real, q: real) returns (zero: real)
    ensures zero == 0.0 && Times(p, 0.0) == 0.0 && Times(q, 0.0) == 0.0
  {
    zero := 0.0;
  }

  lemma ScaleMiddle(c: real, x: real, y: real, p: real)
    ensures Product(c, Times(p, x), y) == Times(p, Product(c, x, y))
  {
    assert c * (p * x) * y == p * (c * x * y);
  }

  lemma ScaleLast(c: real, x: real, y: real, q: real)
    ensures Product(c, x, Times(q, y)) == Times(q, Product(c, x, y))
  {
    assert c * x * (q * y) == q * (c * x * y);
  }

  lemma SplitFirst(a: real, b: real, x: real, y: real)
    ensures Product(a + b, x, y) == Product(a, x, y) + Product(b, x, y)
  {
    assert (a + b) * x * y == a * x * y + b * x * y;
  }

  lemma Distribute(a: real, b: real, x: real, y: real, p: real, q: real)
    ensures Product(a + b, Times(p, x), Times(q, y))
         == Times(p, Product(a, x, Times(q, y))) + Times(q, Product(b, Times(p, x), y))
  {
    SplitFirst(a, b, Times(p, x), Times(q, y));
    ScaleMiddle(a, x, Times(q, y), p);
    ScaleLast(b, Times(p, x), y, q);
  }

  lemma Complement(p: real, t: real)
    ensures Times(1.0 - p, t) == t - Times(p, t)
  {
  }

  /** One more vote moves the tail by the chance that it is decisive. */
  lemma {:induction false} TailStep(n: nat, k: nat, p: real)
    requires k >= 1
    ensures Tail(n + 1, k, p) == Tail(n, k, p) + Times(p, Term(n, k - 1, p))
    decreases n + 2 - k
  {
    hide Product, Times, Term;
    if k <= n + 1 {
      TailStep(n, k + 1, p);
      TermStep(n, k, p);
      Complement(p, Term(n, k, p));
      TermAbove(n, p);
    } else {
      TermAbove(n, p);
      TermAbove(k - 1, p);
      BeyondTerm(n, k - 1, p);
    }
  }

  lemma TermAbove(n: nat, p: real)
    ensures Term(n, n + 1, p) == 0.0
  {
  }

  lemma BeyondTerm(n: nat, j: nat, p: real)
    requires j > n
    ensures Times(p, Term(n, j, p)) == 0.0
  {
  }

  /** The chances of all numbers of successes add up to one. */
  lemma {:induction false} TailWhole(n: nat, p: real)
    ensures Tail(n, 0, p) == 1.0
  {
    if n == 0 {
      assert Product(1.0, 1.0, 1.0) == 1.0;
      assert Term(0, 0, p) == 1.0;
      assert Tail(0, 1, p) == 0.0;
    } else {
      hide Product, Times, Term;
      TailWhole(n - 1, p);
      TailStep(n - 1, 1, p);
      TermStep(n - 1, 0, p);
      Complement(p, Term(n - 1, 0, p));
    }
  }

  /** Exchanging success and failure. */
  lemma TermMirror(n: nat, j: nat, p: real)
    requires j <= n
    ensures Term(n, n - j, 1.0 - p) == Term(n, j, p)
  {
    hide Product, Comb, Pow;
    CombSymmetric(n, j);
    assert 1.0 - (1.0 - p) == p;
    Exchange(Comb(n, j) as real, Pow(p, j), Pow(1.0 - p, n - j));
  }

  lemma Exchange(c: real, x: real, y: real)
    ensures Product(c, x, y) == Product(c, y, x)
  {
  }

  /** At least k successes, or at least n + 1 - k failures. */
  lemma {:induction false} TailMirror(n: nat, k: nat, p: real)
    requires k <= n + 1
    ensures Tail(n, k, p) + Tail(n, n + 1 - k, 1.0 - p) == 1.0
  {
    hide Term;
    if k == 0 {
      TailWhole(n, p);
    } else {
      TailMirror(n, k - 1, p);
      TermMirror(n, k - 1, p);
    }
  }

  // ---------------------------------------------------------------- the jury identities

  /** Win(n, p) + Win(n, 1 - p) = 1 for every number of votes. */
  lemma WinComplement(n: nat, p: real)
    ensures Win(n, p) + Win(n, 1.0 - p) == 1.0
  {
    hide Term;
    var m := n / 2;
    TailMirror(n, m + 1, p);
    if n % 2 == 0 {
      TermMirror(n, m, p);
      assert Tail(n, m, 1.0 - p) == Term(n, m, 1.0 - p) + Tail(n, m + 1, 1.0 - p);
    }
  }

  /** With 2m votes a tie is twice as likely as m of 2m - 1 successes and then a failure. */
  lemma TieTerm(m: nat, p: real)
    requires m >= 1
    ensures Term(2 * m, m, p) == 2.0 * Times(1.0 - p, Term(2 * m - 1, m, p))
  {
    var n, q := 2 * m - 1, 1.0 - p;
    hide Product, Times, Comb;
    TermStep(n, m, p);
    CombSymmetric(n, m);
    var c, x, y := Comb(n, m) as real, Pow(p, m - 1), Pow(q, m - 1);
    assert Term(n, m - 1, p) == Product(c, x, Times(q, y));
    assert Term(n, m, p) == Product(c, Times(p, x), y);
    ScaleLast(c, x, y, q);
    ScaleMiddle(c, x, y, p);
    Swap(p, q, Product(c, x, y));
  }

  lemma Swap(p: real, q: real, z: real)
    ensures Times(p, Times(q, z)) == Times(q, Times(p, z))
  {
    assert p * (q * z) == q * (p * z);
  }

  /** An even vote adds nothing to the odd one before it, thanks to the fair tie. */
  lemma EvenAddsNothing(m: nat, p: real)
    requires m >= 1
    ensures Win(2 * m, p) == Win(2 * m - 1, p)
  {
    hide Term, Times;
    var n, t := 2 * m - 1, Term(2 * m - 1, m, p);
    TailStep(n, m + 1, p);
    TieTerm(m, p);
    assert Tail(n, m, p) == t + Tail(n, m + 1, p);
    Complement(p, t);
  }

  /** Two more votes move the odds by the chance of a tie times the edge. */
  lemma OddStep(m: nat, p: real)
    requires m >= 1
    ensures Win(2 * m + 1, p) - Win(2 * m - 1, p) == (p - 0.5) * Term(2 * m, m, p)
  {
    hide Term, Times;
    EvenAddsNothing(m, p);
    TailStep(2 * m, m + 1, p);
    var t := Term(2 * m, m, p);
    assert Win(2 * m + 1, p) == Tail(2 * m + 1, m + 1, p);
    assert Win(2 * m, p) == Tail(2 * m, m + 1, p) + 0.5 * t;
    Edge(p, t);
  }

  lemma Edge(p: real, t: real)
    ensures Times(p, t) - 0.5 * t == (p - 0.5) * t
  {
  }

  lemma {:induction false} PowPositive(x: real, n: nat)
    requires x > 0.0
    ensures Pow(x, n) > 0.0
  {
    if n > 0 {
      PowPositive(x, n - 1);
      Positive(x, Pow(x, n - 1));
    }
  }

  lemma Positive(x: real, y: real)
    requires x > 0.0 && y > 0.0
    ensures x * y > 0.0
  {
  }

  lemma {:induction false} CombPositive(n: nat, k: nat)
    requires k <= n
    ensures Comb(n, k) >= 1
  {
    if 0 < k {
      CombPositive(n - 1, k - 1);
    }
  }

  lemma TermPositive(n: nat, j: nat, p: real)
    requires j <= n && 0.0 < p < 1.0
    ensures Term(n, j, p) > 0.0
  {
    CombPositive(n, j);
    PowPositive(p, j);
    PowPositive(1.0 - p, n - j);
    hide Comb, Pow;
    Positive(Comb(n, j) as real, Pow(p, j));
    Positive(Comb(n, j) as real * Pow(p, j), Pow(1.0 - p, n - j));
  }

  lemma TermAtEnds(n: nat, j: nat)
    requires 0 < j < n
    ensures Term(n, j, 0.0) == 0.0 && Term(n, j, 1.0) == 0.0
  {
  }

  /** More votes help exactly when a single vote is at least as good as a coin, or always wrong. */
  lemma MoreVotesHelpExactly(m: nat, p: real)
    requires m >= 1 && 0.0 <= p <= 1.0
    ensures Win(2 * m + 1, p) >= Win(2 * m - 1, p) <==> p >= 0.5 || p == 0.0
    ensures Win(2 * m + 1, p) > Win(2 * m - 1, p) <==> 0.5 < p < 1.0
  {
    OddStep(m, p);
    var t := Term(2 * m, m, p);
    if 0.0 < p < 1.0 {
      TermPositive(2 * m, m, p);
      if p > 0.5 {
        Positive(p - 0.5, t);
      } else if p < 0.5 {
        Positive(0.5 - p, t);
        assert (p - 0.5) * t == -((0.5 - p) * t);
      }
    } else {
      TermAtEnds(2 * m, m);
    }
  }

  lemma WinOne(p: real)
    ensures Win(1, p) == p
  {
    assert Comb(1, 1) == Comb(0, 0) + Comb(0, 1) == 1;
    assert Pow(p, 1) == Times(p, Pow(p, 0)) == p;
    assert Tail(1, 2, p) == 0.0;
  }

  /** The jury theorem: a majority is at least as reliable as one voter, and more voters never hurt. */
  lemma {:induction false} JuryTheorem(n: nat, n': nat, p: real)
    requires 1 <= n <= n' && 0.5 <= p <= 1.0
    ensures p <= Win(n, p) <= Win(n', p)
  {
    if n' == 1 {
      WinOne(p);
    } else {
      if n == n' {
        JuryTheorem(n - 1, n' - 1, p);
      } else {
        JuryTheorem(n, n' - 1, p);
      }
      OneMoreVote(n', p);
    }
  }

  lemma OneMoreVote(n: nat, p: real)
    requires 2 <= n && 0.5 <= p <= 1.0
    ensures Win(n - 1, p) <= Win(n, p)
  {
    var m := n / 2;
    if n % 2 == 0 {
      assert n == 2 * m;
      EvenAddsNothing(m, p);
    } else {
      assert n == 2 * m + 1;
      EvenAddsNothing(m, p);
      MoreVotesHelpExactly(m, p);
    }
  }

  // ---------------------------------------------------------------- the loop

  datatype Error = VotesNotPositive | ProbabilityOutOfRange

  /** pairwise_majority_probability, accumulating from the threshold upwards. */
  method MajorityProbability(votes: int, p: real) returns (r: Result<real, Error>)
    ensures r == if votes < 1 then Err(VotesNotPositive)
      else if !(0.0 <= p <= 1.0) then Err(ProbabilityOutOfRange)
      else Ok(Win(votes, p))
  {
    if votes < 1 {
      return Err(VotesNotPositive);
    }
    if !(0.0 <= p <= 1.0) {
      return Err(ProbabilityOutOfRange);
    }
    hide Term;
    var probability := 0.0;
    var threshold := votes / 2 + 1;
    for successes := threshold to votes + 1
      invariant probability == Tail(votes, threshold, p) - Tail(votes, successes, p)
    {
      probability := probability + Term(votes, successes, p);
    }
    if votes % 2 == 0 {
      var ties := Term(votes, votes / 2, p);
      probability := probability + 0.5 * ties;
    }
    r := Ok(probability);
  }
}
