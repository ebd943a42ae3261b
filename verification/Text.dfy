/** Texts: stripping, blankness and the code-point order used by ORDER BY and by sorted(). */
module Text {

  predicate IsSpace(c: char) {
    '\t' <= c <= '\r' || '\U{1C}' <= c <= ' '
  }

  /** str.strip(), over the ASCII whitespace characters. */
  function Strip(s: string): string {
    if s != [] && IsSpace(s[0]) then Strip(s[1..])
    else if s != [] && IsSpace(s[|s| - 1]) then Strip(s[..|s| - 1])
    else s
  }

  predicate Blank(s: string) {
    Strip(s) == []
  }

  lemma {:induction false} NotBlank(s: string)
    requires s != [] && !IsSpace(s[0])
    ensures !Blank(s)
  {
    if IsSpace(s[|s| - 1]) {
      NotBlank(s[..|s| - 1]);
    }
  }

  /** Strict lexicographic order by code point. */
  predicate Less(a: string, b: string) {
    if a == [] then b != []
    else b != [] && (a[0] < b[0] || (a[0] == b[0] && Less(a[1..], b[1..])))
  }

  /** Less is a strict total order: exactly one of the three relations holds. */
  lemma {:induction false} LessTrichotomy(a: string, b: string)
    ensures (if Less(a, b) then 1 else 0) + (if a == b then 1 else 0) + (if Less(b, a) then 1 else 0) == 1
  {
    if a != [] && b != [] {
      LessTrichotomy(a[1..], b[1..]);
      assert a == [a[0]] + a[1..] && b == [b[0]] + b[1..];
    }
  }

  lemma {:induction false} LessTransitive(a: string, b: string, c: string)
    requires Less(a, b) && Less(b, c)
    ensures Less(a, c)
  {
    if a != [] && a[0] == b[0] == c[0] {
      LessTransitive(a[1..], b[1..], c[1..]);
    }
  }

  // ---------------------------------------------------------------- what these mean

  /** The code points of tab to carriage return, of the four separators, and of the space. */
  predicate SpaceCode(k: int) {
    k in {9, 10, 11, 12, 13, 28, 29, 30, 31, 32}
  }

  /** Some character is not white space. */
  predicate HasText(s: string) {
    exists i | 0 <= i < |s| :: !SpaceCode(s[i] as int)
  }

  lemma SpaceMeans(c: char)
    ensures IsSpace(c) <==> SpaceCode(c as int)
  {
  }

  /** Stripping cuts white space off both ends, and all of it. */
  lemma {:induction false} StripMeans(s: string) returns (i: nat, j: nat)
    ensures i <= j <= |s| && Strip(s) == s[i..j]
    ensures forall k | 0 <= k < i || j <= k < |s| :: SpaceCode(s[k] as int)
    ensures i < j ==> !SpaceCode(s[i] as int) && !SpaceCode(s[j - 1] as int)
    decreases |s|
  {
    if s != [] && IsSpace(s[0]) {
      i, j := StripMeans(s[1..]);
      assert forall k | 0 <= k < |s| - 1 :: s[1..][k] == s[k + 1];
      i, j := i + 1, j + 1;
      forall k | 0 <= k < i || j <= k < |s| ensures SpaceCode(s[k] as int) {
        if k > 0 {
          assert s[1..][k - 1] == s[k];
        }
      }
    } else if s != [] && IsSpace(s[|s| - 1]) {
      i, j := StripMeans(s[..|s| - 1]);
      forall k | 0 <= k < i || j <= k < |s| ensures SpaceCode(s[k] as int) {
        if k < |s| - 1 {
          assert s[..|s| - 1][k] == s[k];
        }
      }
    } else {
      i, j := 0, |s|;
    }
  }

  /** A text is blank exactly when it has nothing but white space. */
  lemma BlankMeans(s: string)
    ensures Blank(s) <==> !HasText(s)
  {
    hide Strip;
    var i, j := StripMeans(s);
    if HasText(s) {
      var k :| 0 <= k < |s| && !SpaceCode(s[k] as int);
      assert i <= k < j;
    }
  }

  /** The texts agree up to k, where the first ends or has the smaller character. */
  predicate LessAt(a: string, b: string, k: int) {
    && 0 <= k <= |a| && k < |b| && a[..k] == b[..k]
    && (k == |a| || a[k] < b[k])
  }

  /** A proper prefix is less, and at the first difference the smaller character decides. */
  lemma {:induction false} LessMeans(a: string, b: string)
    ensures Less(a, b) <==> exists k :: LessAt(a, b, k)
  {
    if a == [] {
      assert b != [] ==> LessAt(a, b, 0);
    } else if b != [] {
      LessMeans(a[1..], b[1..]);
      if a[0] == b[0] {
        if k :| LessAt(a[1..], b[1..], k) {
          assert a[..k + 1] == [a[0]] + a[1..][..k] && b[..k + 1] == [b[0]] + b[1..][..k];
          assert LessAt(a, b, k + 1);
        }
        if k :| LessAt(a, b, k) {
          assert k > 0;
          assert a[1..][..k - 1] == a[..k][1..] && b[1..][..k - 1] == b[..k][1..];
          assert LessAt(a[1..], b[1..], k - 1);
        }
      } else {
        assert a[0] < b[0] ==> LessAt(a, b, 0);
      }
    }
  }
}
